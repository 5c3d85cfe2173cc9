/** How `handle_media` of bot.py treats one file of an extracted archive:
    its kind by lower-cased extension, its output path, and the encoder
    call made for it. */
module ArchiveEntries {
  import opened Text
  import opened Paths
  import opened Telegram
  import opened Encoder

  const CompressDir: string := "compressed"

  /** How an archive entry is treated, by its lower-cased extension. */
  datatype EntryKind = AudioEntry | VideoEntry | NotMedia

  const AudioExtensions: seq<string> := [".mp3", ".wav", ".aac"]
  const VideoExtensions: seq<string> := [".mp4", ".mkv", ".mov"]

  function KindOf(fileName: string): EntryKind {
    var e := Lower(SplitExt(fileName).1);
    if e in AudioExtensions then AudioEntry
    else if e in VideoExtensions then VideoEntry
    else NotMedia
  }

  /** Every listed extension has `p`, `a`, `k` or `o` as its third
      character, so an extension with any other third character is in
      neither list. */
  lemma UnlistedExtension(e: string)
    requires |e| > 2 && e[2] != 'p' && e[2] != 'a' && e[2] != 'k' && e[2] != 'o'
    ensures e !in AudioExtensions && e !in VideoExtensions
  {
    assert AudioExtensions[0][2] == 'p' && AudioExtensions[1][2] == 'a' && AudioExtensions[2][2] == 'a';
    assert VideoExtensions[0][2] == 'p' && VideoExtensions[1][2] == 'k' && VideoExtensions[2][2] == 'o';
  }

  /** The kind depends only on the lower-cased extension. */
  lemma KindByExtension(fileName: string, ext: string)
    requires SplitExt(fileName).1 == ext
    ensures KindOf(fileName) == AudioEntry <==> Lower(ext) in AudioExtensions
    ensures KindOf(fileName) == VideoEntry <==> Lower(ext) in VideoExtensions
  {
  }

  /** The stem of an ordinary file name: not empty, without a slash and
      without a dot. */
  predicate PlainStem(stem: string) {
    stem != [] && '/' !in stem && '.' !in stem
  }

  /** A stem followed by a one-dot extension splits at that dot, and the
      name has no slash. */
  lemma SplitStemExt(stem: string, ext: string)
    requires PlainStem(stem)
    requires |ext| > 0 && ext[0] == '.' && '.' !in ext[1..] && '/' !in ext
    ensures SplitExt(stem + ext) == (stem, ext)
    ensures '/' !in stem + ext
  {
    var p := stem + ext;
    var n := |stem|;
    assert p[..n] == stem && p[n..] == ext;
    assert p[n + 1..] == ext[1..];
    forall k | 0 <= k < |p|
      ensures p[k] != '/'
    {
      if k < n {
        assert p[k] == stem[k];
      } else {
        assert p[k] == ext[k - n];
      }
    }
    assert p[0] == stem[0];
    SplitExtAtLastDot(p, n);
  }

  /** Extensions are compared after lower-casing: `Song.MP3` is audio. */
  lemma UpperCaseExtensionIsMedia(stem: string)
    requires PlainStem(stem)
    ensures KindOf(stem + ".MP3") == AudioEntry
  {
    assert ".MP3"[1..] == "MP3";
    SplitStemExt(stem, ".MP3");
    assert Lower(".MP3") == ".mp3" == AudioExtensions[0];
  }

  /** `.m4a` is not in either list, so such an entry is not encoded. */
  lemma M4aIsNotMedia(stem: string)
    requires PlainStem(stem)
    ensures KindOf(stem + ".m4a") == NotMedia
  {
    assert ".m4a"[1..] == "m4a";
    SplitStemExt(stem, ".m4a");
    assert Lower(".m4a") == ".m4a";
    UnlistedExtension(".m4a");
  }

  /** A file named just `.mp3` has no extension in `splitext`'s sense, so it
      is not encoded either. */
  lemma HiddenNameIsNotMedia()
    ensures KindOf(".mp3") == NotMedia
  {
    assert ".mp3"[1..] == "mp3";
    SplitExtHidden(".mp3");
    assert Lower("") == "";
  }

  /** The output path of an archive entry: `compressed/compressed_` + its
      basename. */
  function EntryOutput(entry: string): string {
    "compressed/compressed_" + Basename(entry)
  }

  /** Every output path lies in `compressed/`. */
  lemma EntryOutputInCompressDir(entry: string)
    ensures "compressed/" <= EntryOutput(entry)
  {
    assert EntryOutput(entry) == "compressed/" + ("compressed_" + Basename(entry));
  }

  /** Two entries share an output path exactly when their basenames are
      equal, so same-named files from different folders collide. */
  lemma EntryOutputCollision(e1: string, e2: string)
    ensures EntryOutput(e1) == EntryOutput(e2) <==> Basename(e1) == Basename(e2)
  {
    var pre := "compressed/compressed_";
    var b1, b2 := Basename(e1), Basename(e2);
    if pre + b1 == pre + b2 {
      assert b1 == (pre + b1)[|pre|..];
      assert b2 == (pre + b2)[|pre|..];
    }
  }

  /** Files of the same name in two folders of the archive (`a/clip.mp4`
      and `b/clip.mp4`, say) are both written to `compressed/compressed_`
      + that name. */
  lemma SameBasenameCollides(dir1: string, dir2: string, name: string)
    requires '/' !in name
    ensures EntryOutput(dir1 + "/" + name) == EntryOutput(dir2 + "/" + name) == "compressed/compressed_" + name
  {
    BasenameOfJoined(dir1, name);
    BasenameOfJoined(dir2, name);
  }

  /** The entry's basename has a media extension, so it is encoded. */
  predicate IsMedia(entry: string) {
    KindOf(Basename(entry)) != NotMedia
  }

  /** The encoder call made for one archive entry, if any: audio at 128k or
      video at resolution "480", reading the extracted file and writing
      the entry's output path. */
  function EntryCall(entry: string, folder: string): (r: seq<EncoderCall>)
    ensures |r| <= 1
    ensures r == [] <==> !IsMedia(entry)
    ensures r != [] ==> r[0].input == folder + "/" + entry && r[0].output == EntryOutput(entry)
    ensures KindOf(Basename(entry)) == AudioEntry ==> r[0].params == AudioParams("128k")
    ensures KindOf(Basename(entry)) == VideoEntry ==>
      r[0].params.VideoParams? && r[0].params.scale == Some("854:480")
  {
    var full := folder + "/" + entry;
    match KindOf(Basename(entry))
    case AudioEntry => [CompressAudio(full, EntryOutput(entry), "128k")]
    case VideoEntry => ScaleRows("480"); [CompressVideo(full, EntryOutput(entry), "480")]
    case NotMedia => []
  }

  /** Joining `compressed_` + a name onto `compressed` gives
      `compressed/compressed_` + the name. */
  lemma CompressedJoin(b: string)
    ensures PathJoin(CompressDir, "compressed_" + b) == "compressed/compressed_" + b
  {
    JoinRelative(CompressDir, "compressed_" + b);
    assert CompressDir + "/" + ("compressed_" + b) == "compressed/compressed_" + b;
  }

  /** The output path the walk loop builds from the split basename is the
      entry's output path. */
  lemma EntryOutputByParts(entry: string)
    ensures var parts := SplitExt(Basename(entry));
      PathJoin(CompressDir, "compressed_" + parts.0 + parts.1) == EntryOutput(entry)
  {
    var b := Basename(entry);
    var parts := SplitExt(b);
    ConcatAssoc("compressed_", parts.0, parts.1);
    CompressedJoin(b);
  }

  /** The call for an entry, stated with the names the walk loop computes:
      the split basename, the joined output path and the lower-cased
      extension. */
  lemma EntryCallByParts(entry: string, folder: string)
    ensures var parts := SplitExt(Basename(entry));
      var out := PathJoin(CompressDir, "compressed_" + parts.0 + parts.1);
      var lowered := Lower(parts.1);
      EntryCall(entry, folder) ==
        if lowered in AudioExtensions then [CompressAudio(folder + "/" + entry, out, "128k")]
        else if lowered in VideoExtensions then [CompressVideo(folder + "/" + entry, out, "480")]
        else []
  {
    EntryOutputByParts(entry);
  }

  /** The body of the walk loop for one file: split its basename, build
      `compressed/compressed_{name}{ext}`, and choose the encoder by the
      lower-cased extension (none for other files). */
  method PlanEntry(entry: string, folder: string) returns (call: seq<EncoderCall>, compressedPath: string)
    ensures call == EntryCall(entry, folder)
    ensures compressedPath == EntryOutput(entry)
  {
    var f := Basename(entry);
    var (name, extension) := SplitExt(f);
    compressedPath := PathJoin(CompressDir, "compressed_" + name + extension);
    var fullPath := folder + "/" + entry;
    EntryCallByParts(entry, folder);
    EntryOutputByParts(entry);
    var lowered := Lower(extension);
    if lowered in AudioExtensions {
      call := [CompressAudio(fullPath, compressedPath, "128k")];
    } else if lowered in VideoExtensions {
      call := [CompressVideo(fullPath, compressedPath, "480")];
    } else {
      call := [];
    }
  }

  /** A name without a slash is its own basename: it is encoded exactly
      when its own kind is media, and it is written to
      `compressed/compressed_` + the name. */
  lemma PlainEntry(name: string)
    requires '/' !in name
    ensures IsMedia(name) <==> KindOf(name) != NotMedia
    ensures EntryOutput(name) == "compressed/compressed_" + name
  {
    BasenameNoSlash(name);
  }

  /** A `.txt` file such as `notes.txt` is not a media file, and its
      output path would be `compressed/compressed_notes.txt`. */
  lemma TxtIsNotMedia(stem: string)
    requires PlainStem(stem)
    ensures KindOf(stem + ".txt") == NotMedia
    ensures !IsMedia(stem + ".txt")
    ensures EntryOutput(stem + ".txt") == "compressed/compressed_" + stem + ".txt"
  {
    assert ".txt"[1..] == "txt";
    SplitStemExt(stem, ".txt");
    assert Lower(".txt") == ".txt";
    UnlistedExtension(".txt");
    PlainEntry(stem + ".txt");
    ConcatAssoc("compressed/compressed_", stem, ".txt");
  }
}
