/** `handle_media` of bot.py: the join gate, the choice of attachment, the
    routing between archive, audio, video and unsupported input, the file
    names, and which files each branch creates and removes. */
module BotHandler {
  import opened Text
  import opened Paths
  import opened Telegram
  import opened Encoder
  import opened Storage
  import opened JoinGate
  import opened ArchiveEntries
  import opened ArchivePlan

  const DownloadDir: string := "downloads"
  const PromptText: string := "Please join all required channels to continue:"
  const NoMediaText: string := "Send an audio/video/document/zip file."
  const UnsupportedText: string := "Unsupported file type."

  /** `message.document or message.video or message.audio`. */
  function PickMedia(msg: Message): (m: Option<Media>)
    ensures m.None? <==> msg.document.None? && msg.video.None? && msg.audio.None?
    ensures msg.document.Some? ==> m == msg.document
    ensures msg.document.None? && msg.video.Some? ==> m == msg.video
    ensures msg.document.None? && msg.video.None? ==> m == msg.audio
    ensures WellFormed(msg) && m.Some? ==> IsFileId(m.value.fileUniqueId)
  {
    FirstPresent(msg.document, msg.video, msg.audio)
  }

  /** `media.file_name or media.file_unique_id`. */
  function FileName(m: Media): string {
    OrElse(m.fileName, m.fileUniqueId)
  }

  /** `os.path.splitext(filename)[-1]`. */
  function InputExt(m: Media): string {
    SplitExt(FileName(m)).1
  }

  /** `downloads/{uid}{ext}`. */
  function InputPath(m: Media): string {
    PathJoin(DownloadDir, m.fileUniqueId + InputExt(m))
  }

  function ExtractFolder(uid: string): string {
    PathJoin(DownloadDir, uid)
  }

  function ZipOutput(uid: string): string {
    PathJoin(CompressDir, "compressed_" + uid + ".zip")
  }

  function AudioOutput(uid: string): string {
    PathJoin(CompressDir, uid + ".mp3")
  }

  function VideoOutput(uid: string): string {
    PathJoin(CompressDir, uid + ".mp4")
  }

  /** The download path is `downloads/` + id + extension, the extension
      being empty or starting with a dot; the outputs live in `compressed/`
      under fixed names. */
  lemma PathShapes(m: Media)
    requires IsFileId(m.fileUniqueId)
    ensures var ext := InputExt(m);
      && InputPath(m) == "downloads/" + m.fileUniqueId + ext
      && (ext == "" || ext[0] == '.')
    ensures ExtractFolder(m.fileUniqueId) == "downloads/" + m.fileUniqueId
    ensures ZipOutput(m.fileUniqueId) == "compressed/compressed_" + m.fileUniqueId + ".zip"
    ensures AudioOutput(m.fileUniqueId) == "compressed/" + m.fileUniqueId + ".mp3"
    ensures VideoOutput(m.fileUniqueId) == "compressed/" + m.fileUniqueId + ".mp4"
  {
    InputPathShape(m.fileUniqueId, InputExt(m));
    OutputPathShapes(m.fileUniqueId);
  }

  lemma InputPathShape(uid: string, ext: string)
    requires IsFileId(uid)
    ensures PathJoin(DownloadDir, uid + ext) == "downloads/" + uid + ext
    ensures PathJoin(DownloadDir, uid) == "downloads/" + uid
  {
    assert uid[0] != '/';
    JoinRelative(DownloadDir, uid + ext);
    ConcatAssoc("downloads/", uid, ext);
    JoinRelative(DownloadDir, uid);
  }

  lemma OutputPathShapes(uid: string)
    requires IsFileId(uid)
    ensures ZipOutput(uid) == "compressed/compressed_" + uid + ".zip"
    ensures AudioOutput(uid) == "compressed/" + uid + ".mp3"
    ensures VideoOutput(uid) == "compressed/" + uid + ".mp4"
  {
    assert uid[0] != '/';
    JoinRelative(CompressDir, "compressed_" + uid + ".zip");
    assert CompressDir + "/" + ("compressed_" + uid + ".zip") == "compressed/compressed_" + uid + ".zip";
    JoinRelative(CompressDir, uid + ".mp3");
    ConcatAssoc("compressed/", uid, ".mp3");
    JoinRelative(CompressDir, uid + ".mp4");
    ConcatAssoc("compressed/", uid, ".mp4");
  }

  /** The four ways `handle_media` goes once it has a file. */
  datatype Route = Archive | AudioFile | VideoFile | Unsupported

  /** The branch condition chain of `handle_media`. */
  function RouteOf(ext: string, mime: string): Route {
    if ext == ".zip" then Archive
    else if Contains(mime, "audio") then AudioFile
    else if Contains(mime, "video") then VideoFile
    else Unsupported
  }

  /** The extension `.zip` (exactly, case-sensitively) wins over any MIME
      type; otherwise a MIME type mentioning "audio" wins over "video";
      everything else is unsupported. */
  lemma RoutePrecedence(ext: string, mime: string)
    ensures ext == ".zip" ==> RouteOf(ext, mime) == Archive
    ensures RouteOf(ext, mime) == AudioFile <==> ext != ".zip" && Contains(mime, "audio")
    ensures RouteOf(ext, mime) == VideoFile <==>
      ext != ".zip" && !Contains(mime, "audio") && Contains(mime, "video")
    ensures RouteOf(ext, mime) == Unsupported <==>
      ext != ".zip" && !Contains(mime, "audio") && !Contains(mime, "video")
  {
  }

  /** A MIME type without the letter `d` mentions neither "audio" nor
      "video", so a non-archive with such a type is unsupported. */
  lemma UnsupportedWithoutD(ext: string, mime: string)
    requires ext != ".zip" && 'd' !in mime
    ensures RouteOf(ext, mime) == Unsupported
  {
    assert "audio"[2] == 'd' && "video"[2] == 'd';
    MissingCharNotContained(mime, "audio", 2);
    MissingCharNotContained(mime, "video", 2);
  }

  /** The archive test is case-sensitive: `.ZIP` is not an archive, even
      with the MIME type `application/zip`. */
  lemma UpperCaseZipIsUnsupported()
    ensures RouteOf(".ZIP", "application/zip") == Unsupported
  {
    assert ".ZIP" != ".zip" by { assert ".ZIP"[1] != ".zip"[1]; }
    UnsupportedWithoutD(".ZIP", "application/zip");
  }

  /** Outside archives, a MIME type naming both audio and video (such as
      `video/audio`) is routed as audio. */
  lemma AudioBeforeVideo(ext: string, mime: string)
    requires ext != ".zip" && Contains(mime, "audio") && Contains(mime, "video")
    ensures RouteOf(ext, mime) == AudioFile
  {
  }

  /** The files `extractall` writes. */
  function Extracted(folder: string, walk: seq<string>): set<string> {
    set e | e in walk :: folder + "/" + e
  }

  /** The files that exist when the archive is written: the earlier files,
      the download, the extracted entries, the encoder outputs and the
      freshly opened archive itself. */
  function ZipTimeFiles(files0: set<string>, m: Media, walk: seq<string>): set<string> {
    files0 + {InputPath(m)} + Extracted(ExtractFolder(m.fileUniqueId), walk)
      + MediaOutputs(walk) + {ZipOutput(m.fileUniqueId)}
  }

  /** Some listed archive member does not exist when the archive is
      written. */
  predicate ArchiveFails(files0: set<string>, m: Media, walk: seq<string>) {
    exists i :: 0 <= i < |walk| && EntryOutput(walk[i]) !in ZipTimeFiles(files0, m, walk)
  }

  /** As written, a non-media entry makes the archive write fail: its
      `compressed_` path was never produced, so unless that file happens
      to exist already (or is the archive itself) `ZipFile.write` raises.
      No media entry can have produced it: an entry of the same basename
      would be no media either. */
  lemma NonMediaEntryBreaksArchive(files0: set<string>, m: Media, walk: seq<string>, k: nat)
    requires IsFileId(m.fileUniqueId)
    requires k < |walk| && !IsMedia(walk[k])
    requires EntryOutput(walk[k]) !in files0 && EntryOutput(walk[k]) != ZipOutput(m.fileUniqueId)
    ensures ArchiveFails(files0, m, walk)
  {
    var uid := m.fileUniqueId;
    var p := EntryOutput(walk[k]);
    PathShapes(m);
    var folder := ExtractFolder(uid);
    assert p[0] == 'c';
    assert p != InputPath(m) by { assert InputPath(m)[0] == 'd'; }
    assert p !in Extracted(folder, walk) by {
      forall e | e in walk
        ensures p != folder + "/" + e
      {
        assert (folder + "/" + e)[0] == 'd';
      }
    }
    MediaOutputsMembers(walk, p);
    if p in MediaOutputs(walk) {
      var j :| 0 <= j < |walk| && IsMedia(walk[j]) && EntryOutput(walk[j]) == p;
      EntryOutputCollision(walk[j], walk[k]);
      assert false;
    }
    assert p !in ZipTimeFiles(files0, m, walk);
  }

  /** A zip holding just one `.txt` file, `notes.txt` say, makes the
      handler raise (when no `compressed/compressed_notes.txt` was left over
      from earlier). */
  lemma TextEntryBreaksArchive(files0: set<string>, m: Media, stem: string)
    requires IsFileId(m.fileUniqueId) && PlainStem(stem)
    requires "compressed/compressed_" + stem + ".txt" !in files0
    ensures ArchiveFails(files0, m, [stem + ".txt"])
  {
    TxtIsNotMedia(stem);
    var out := "compressed/compressed_" + stem + ".txt";
    var zip := ZipOutput(m.fileUniqueId);
    assert out != zip by {
      PathShapes(m);
      assert out[|out| - 1] == 't' && zip[|zip| - 1] == 'p';
    }
    NonMediaEntryBreaksArchive(files0, m, [stem + ".txt"], 0);
  }

  /** With the corrected list every member exists when the archive is
      written, so the write never fails. */
  lemma MediaOnlyArchiveWrites(files0: set<string>, m: Media, walk: seq<string>)
    ensures forall i :: 0 <= i < |MediaEntryOutputs(walk)| ==>
      MediaEntryOutputs(walk)[i] in ZipTimeFiles(files0, m, walk)
  {
    MediaEntryOutputsWritten(walk);
  }

  /** Where `handle_media` goes for a message. */
  datatype Stage = Denied | NoMedia | Routed(media: Media, route: Route)

  function StageOf(msg: Message, channels: seq<string>, lookup: string -> Lookup): Stage {
    if !GateOpen(channels, lookup) then Denied
    else match PickMedia(msg)
      case None => NoMedia
      case Some(m) => Routed(m, RouteOf(InputExt(m), MimeOf(m)))
  }

  /** A path in `compressed/` is never inside a folder of `downloads/`. */
  lemma CompressedNotUnderDownloads(p: string, uid: string)
    requires "compressed/" <= p
    ensures !Under(p, "downloads/" + uid)
  {
    assert p[0] == 'c' && ("downloads/" + uid)[0] == 'd';
  }

  /** After the archive has been written, removing the extract folder, the
      archive and the download leaves the earlier files outside the
      folder plus every encoder output; the download and the archive are
      outside the folder, so both removals find their file. */
  lemma ZipRunCleanup(files0: set<string>, m: Media, walk: seq<string>)
    requires IsFileId(m.fileUniqueId) && InputExt(m) == ".zip"
    ensures var folder := ExtractFolder(m.fileUniqueId);
      var zip := ZipOutput(m.fileUniqueId);
      var after := Outside(ZipTimeFiles(files0, m, walk), folder);
      && zip in after && InputPath(m) in after - {zip}
      && after - {zip} - {InputPath(m)}
           == (Outside(files0, folder) + MediaOutputs(walk)) - {InputPath(m), zip}
  {
    var uid := m.fileUniqueId;
    PathShapes(m);
    var folder := ExtractFolder(uid);
    var zip := ZipOutput(uid);
    var input := InputPath(m);
    var all := ZipTimeFiles(files0, m, walk);
    var after := Outside(all, folder);
    CompressedNotUnderDownloads(zip, uid);
    assert input[|folder|] == '.';
    assert !Under(input, folder);
    MediaOutputsInCompressDir(walk);
    forall p | p in MediaOutputs(walk)
      ensures !Under(p, folder)
    {
      CompressedNotUnderDownloads(p, uid);
    }
    forall p | p in Extracted(folder, walk)
      ensures Under(p, folder)
    {
      var e :| e in walk && p == folder + "/" + e;
      assert p[..|folder|] == folder;
    }
    assert zip in after;
    assert input in after - {zip};
  }

  /** `handle_media`. `channels` and `via` are the configuration,
      `lookup` answers membership queries, and `walk` lists the files the
      archive (if any) extracts to, relative to the extract folder, in the
      order `os.walk` yields them. `crashed` means an exception escaped. */
  method HandleMedia(disk: Disk, msg: Message, channels: seq<string>, lookup: string -> Lookup,
                     via: string, walk: seq<string>)
    returns (replies: seq<Reply>, calls: seq<EncoderCall>, crashed: bool)
    requires WellFormed(msg)
    modifies disk
    ensures var st := StageOf(msg, channels, lookup);
      st.Denied? ==>
        && replies == [Prompt(PromptText, JoinButtons(NotJoined(channels, lookup)))]
        && calls == [] && !crashed && disk.files == old(disk.files)
    ensures var st := StageOf(msg, channels, lookup);
      st.NoMedia? ==> replies == [Text(NoMediaText)] && calls == [] && !crashed && disk.files == old(disk.files)
    ensures var st := StageOf(msg, channels, lookup);
      st.Routed? && st.route == Unsupported ==>
        && replies == [Text(UnsupportedText)] && calls == [] && !crashed
        && disk.files == old(disk.files) - {InputPath(st.media)}
    ensures var st := StageOf(msg, channels, lookup);
      st.Routed? && st.route == AudioFile ==>
        var m := st.media; var out := AudioOutput(m.fileUniqueId);
        && calls == [CompressAudio(InputPath(m), out, "128k")]
        && replies == [SendAudio(out, "via " + via)] && !crashed
        && disk.files == old(disk.files) - {InputPath(m), out}
    ensures var st := StageOf(msg, channels, lookup);
      st.Routed? && st.route == VideoFile ==>
        var m := st.media; var out := VideoOutput(m.fileUniqueId);
        && calls == [CompressVideo(InputPath(m), out, "480")]
        && replies == [SendVideo(out, "via " + via)] && !crashed
        && disk.files == old(disk.files) - {InputPath(m), out}
    ensures var st := StageOf(msg, channels, lookup);
      st.Routed? && st.route == Archive ==>
        var m := st.media;
        var folder := ExtractFolder(m.fileUniqueId);
        var zip := ZipOutput(m.fileUniqueId);
        && calls == EntryCalls(walk, folder)
        && (crashed <==> ArchiveFails(old(disk.files), m, walk))
        && (crashed ==> replies == [] && disk.files == ZipTimeFiles(old(disk.files), m, walk))
        && (!crashed ==>
              && replies == [SendDocument(zip, "via " + via)]
              && disk.files == (Outside(old(disk.files), folder) + MediaOutputs(walk)) - {InputPath(m), zip})
  {
    var allowed, prompt := CheckJoin(channels, lookup, PromptText);
    if !allowed {
      return [prompt.value], [], false;
    }
    var media := PickMedia(msg);
    if media.None? {
      return [Text(NoMediaText)], [], false;
    }
    var m := media.value;
    var ext := InputExt(m);
    var mime := MimeOf(m);
    var caption := "via " + via;
    if ext == ".zip" {
      replies, calls, crashed := HandleArchive(disk, m, caption, walk);
    } else {
      replies, calls := HandleSingle(disk, m, caption);
      crashed := false;
    }
  }

  /** The `.zip` branch: download, extract, encode the media entries, write
      the archive, send it and clean up. */
  method HandleArchive(disk: Disk, m: Media, caption: string, walk: seq<string>)
    returns (replies: seq<Reply>, calls: seq<EncoderCall>, crashed: bool)
    requires IsFileId(m.fileUniqueId) && InputExt(m) == ".zip"
    modifies disk
    ensures var folder := ExtractFolder(m.fileUniqueId);
      var zip := ZipOutput(m.fileUniqueId);
      && calls == EntryCalls(walk, folder)
      && (crashed <==> ArchiveFails(old(disk.files), m, walk))
      && (crashed ==> replies == [] && disk.files == ZipTimeFiles(old(disk.files), m, walk))
      && (!crashed ==>
            && replies == [SendDocument(zip, caption)]
            && disk.files == (Outside(old(disk.files), folder) + MediaOutputs(walk)) - {InputPath(m), zip})
  {
    var uid := m.fileUniqueId;
    var inputPath := PathJoin(DownloadDir, uid + SplitExt(FileName(m)).1);
    disk.Write(inputPath);
    var folder := PathJoin(DownloadDir, uid);
    disk.WriteAll(Extracted(folder, walk));
    var compressed;
    calls, compressed := PlanArchive(walk, folder);
    disk.RunAll(calls);
    PlanOutputs(walk, folder);
    var zip := PathJoin(CompressDir, "compressed_" + uid + ".zip");
    disk.Write(zip);
    assert disk.files == ZipTimeFiles(old(disk.files), m, walk);
    var members, ok := WriteArchive(disk.files, compressed);
    if !ok {
      return [], calls, true;
    }
    replies := [SendDocument(zip, caption)];
    ZipRunCleanup(old(disk.files), m, walk);
    disk.RemoveTree(folder);
    disk.Remove(zip);
    disk.Remove(inputPath);
    crashed := false;
  }

  /** The `.zip` branch with the corrected archive list: the archive write
      cannot fail, so the archive is always sent and the cleanup always
      runs. */
  method HandleArchiveCorrected(disk: Disk, m: Media, caption: string, walk: seq<string>)
    returns (replies: seq<Reply>, calls: seq<EncoderCall>)
    requires IsFileId(m.fileUniqueId) && InputExt(m) == ".zip"
    modifies disk
    ensures var folder := ExtractFolder(m.fileUniqueId);
      var zip := ZipOutput(m.fileUniqueId);
      && calls == EntryCalls(walk, folder)
      && replies == [SendDocument(zip, caption)]
      && disk.files == (Outside(old(disk.files), folder) + MediaOutputs(walk)) - {InputPath(m), zip}
  {
    var uid := m.fileUniqueId;
    var inputPath := PathJoin(DownloadDir, uid + SplitExt(FileName(m)).1);
    disk.Write(inputPath);
    var folder := PathJoin(DownloadDir, uid);
    disk.WriteAll(Extracted(folder, walk));
    var members;
    calls, members := PlanArchiveMediaOnly(walk, folder);
    disk.RunAll(calls);
    PlanOutputs(walk, folder);
    var zip := PathJoin(CompressDir, "compressed_" + uid + ".zip");
    disk.Write(zip);
    assert disk.files == ZipTimeFiles(old(disk.files), m, walk);
    MediaOnlyArchiveWrites(old(disk.files), m, walk);
    var names, ok := WriteArchive(disk.files, members);
    assert ok;
    replies := [SendDocument(zip, caption)];
    ZipRunCleanup(old(disk.files), m, walk);
    disk.RemoveTree(folder);
    disk.Remove(zip);
    disk.Remove(inputPath);
  }

  /** Run one encoder call, send its output, then remove that output. */
  method EncodeAndSend(disk: Disk, call: EncoderCall, reply: Reply)
    returns (replies: seq<Reply>, calls: seq<EncoderCall>)
    modifies disk
    ensures replies == [reply] && calls == [call]
    ensures disk.files == old(disk.files) - {call.output}
  {
    calls := [call];
    disk.Write(call.output);
    replies := [reply];
    disk.Remove(call.output);
  }

  /** The audio, video and unsupported branches: download, encode to
      `compressed/{id}.mp3` or `.mp4` and send it, or answer that the type
      is unsupported; then remove what was written. */
  method HandleSingle(disk: Disk, m: Media, caption: string)
    returns (replies: seq<Reply>, calls: seq<EncoderCall>)
    requires IsFileId(m.fileUniqueId) && InputExt(m) != ".zip"
    modifies disk
    ensures var route := RouteOf(InputExt(m), MimeOf(m));
      route == Unsupported ==>
        && replies == [Text(UnsupportedText)] && calls == []
        && disk.files == old(disk.files) - {InputPath(m)}
    ensures var route := RouteOf(InputExt(m), MimeOf(m)); var out := AudioOutput(m.fileUniqueId);
      route == AudioFile ==>
        && calls == [CompressAudio(InputPath(m), out, "128k")]
        && replies == [SendAudio(out, caption)]
        && disk.files == old(disk.files) - {InputPath(m), out}
    ensures var route := RouteOf(InputExt(m), MimeOf(m)); var out := VideoOutput(m.fileUniqueId);
      route == VideoFile ==>
        && calls == [CompressVideo(InputPath(m), out, "480")]
        && replies == [SendVideo(out, caption)]
        && disk.files == old(disk.files) - {InputPath(m), out}
  {
    var uid := m.fileUniqueId;
    var mime := MimeOf(m);
    var inputPath := InputPath(m);
    disk.Write(inputPath);
    PathShapes(m);
    assert inputPath[0] == 'd' && AudioOutput(uid)[0] == 'c' && VideoOutput(uid)[0] == 'c';
    if Contains(mime, "audio") {
      var out := AudioOutput(uid);
      replies, calls := EncodeAndSend(disk, CompressAudio(inputPath, out, "128k"), SendAudio(out, caption));
    } else if Contains(mime, "video") {
      var out := VideoOutput(uid);
      replies, calls := EncodeAndSend(disk, CompressVideo(inputPath, out, "480"), SendVideo(out, caption));
    } else {
      replies, calls := [Text(UnsupportedText)], [];
    }
    disk.Remove(inputPath);
  }
}
