# FastFileCompressorBot — a Dafny model of the media handlers

The bot receives an audio file, a video or a document from a Telegram user. It re-encodes the file with `ffmpeg` and sends it back with the caption `via <username>`. A `.zip` document is unpacked and each media file inside it is encoded. The handler then lists a `compressed_` path for every unpacked file, media or not, and writes them into one new archive; a non-media entry makes that write raise (see Findings).

Before any of this, the user must have joined every channel the owner configured with `/setchannels`. This is the join gate, `check_join`.

The repository holds two variants:
- `bot.py` handles archives. It routes by extension and then by MIME type.
- `main.py` handles single files only. It has a 100 MiB size guard and derives names from the MIME type.

The model covers the decision and naming logic of both `handle_media` handlers and of `check_join`, and the owner's channel split. It also tracks the temporary files each branch creates and removes.

The modules are:
- `Text` (`text.dfy`): the Python string operations the handlers use, each with its properties. These are `strip`, `lstrip('@')`, `split(',')`, `split('/')[-1]`, `lower` and the substring test `"audio" in mime`. `JoinWith` (joining fields with a separator) is not used by the handlers; it states that `split(',')` loses nothing.
- `Paths` (`paths.dfy`): `os.path.join` with two arguments, `os.path.splitext` and `os.path.basename`.
- `Telegram` (`telegram.dfy`): the message and attachment records, Python's `a or b` on optional values (including the MIME type fallback both handlers share), and the replies a handler sends.
- `JoinGate` (`join_gate.dfy`):
  - `check_join` as a loop over the configured channels, with the membership query as a function argument;
  - `/setchannels` as a pure function.
- `Encoder` (`encoder.dfy`): the `ffmpeg` options each branch chooses, as a record, and the `compress_video` resolution table.
- `Storage` (`storage.dfy`): the local filesystem as a class holding the set of existing file paths. Writes and removals update that set in place.
- `Walks` (`walks.dfy`): the lists a loop over the files of an `os.walk` builds, one file at a time. The test and the value for each file are parameters.
- `ArchiveEntries` (`archive_entries.dfy`): how `handle_media` of `bot.py` treats one extracted file. This covers its kind by lower-cased extension, its output path, and the encoder call made for it.
- `ArchivePlan` (`archive_plan.dfy`): the walk loop and the archive write loop of `bot.py`, and the corrected walk loop.
- `BotHandler` (`bot_handler.dfy`): `handle_media` of `bot.py`. This covers the routing, the path names and the file lifecycle of every branch.
- `MainHandler` (`main_handler.dfy`): `handle_media` of `main.py`.

Some modelling choices:
- **Telegram.** A message is a record with optional `document`, `video` and `audio` attachments. Each attachment has an optional file name, an optional MIME type, a `file_unique_id` and an optional size. Telegram issues unique ids as non-empty URL-safe base64, so bot.py's handler assumes such an id.
- **Filesystem.** A handler's effect on the filesystem is stated as the exact final set of paths. When a Python exception escapes, the handler ends and does no cleanup. The model reports this as `crashed`, together with the file set at that point.
- **Archive contents.** The files of an extracted archive are given as a sequence of paths relative to the extract folder, in the order `os.walk` yields them.

## Model

| member | source | states |
|---|---|---|
| Text.TrimStartSpec | bot.py:96 | `lstrip()` keeps a suffix, drops only whitespace and stops at the first non-whitespace character |
| Text.TrimEndSpec | bot.py:96 | `rstrip()` keeps a prefix, drops only whitespace and stops at the last non-whitespace character |
| Text.StripSlice | bot.py:96 | `strip()` returns a slice of the channel name, everything cut off around it is whitespace, and the result neither starts nor ends with whitespace |
| Text.StripClean | main.py:72 | a name without whitespace at either end is unchanged by `strip()` |
| Text.StripIdempotent | main.py:74 | stripping an already stripped name changes nothing |
| Text.DropLeading | bot.py:102 | `lstrip('@')` removes exactly the leading run of `@`: the result is a suffix, everything dropped is `@`, and the result does not start with `@` |
| Text.ContainsIff | bot.py:167 | `sub in s` holds exactly when `sub` occurs at some position of `s` |
| Text.ContainsWitness | bot.py:167 | when `sub in s` holds, `sub` occurs at a position of `s` |
| Text.OccursContains | bot.py:167 | an occurrence of `sub` at any position makes `sub in s` true |
| Text.MissingCharNotContained | bot.py:173 | a string lacking one character of `sub` does not contain `sub` |
| Text.Split | bot.py:72 | `split(',')` yields at least one field and no field holds the separator |
| Text.SplitThenJoin | main.py:48 | joining the fields of `split(',')` with `,` gives back the argument, so no character is lost or reordered |
| Text.SplitCount | bot.py:72 | `split(',')` yields one field more than there are commas, so empty fields are kept |
| Text.LastFieldIsSuffix | main.py:102 | `split('/')[-1]` is the suffix after the last `/`, or the whole string when there is none |
| Text.LowerSpec | bot.py:154 | lower-casing keeps the length and maps every character independently |
| Paths.RFind | bot.py:132 | the index found holds the character and no later index does, or the result is -1 |
| Paths.PathJoin | bot.py:137 | `os.path.join(a, b)` ends with `b`, and starts with `a` when `b` is relative |
| Paths.JoinRelative | bot.py:144 | joining a relative name onto a directory without a trailing slash inserts exactly one `/` |
| Paths.Basename | bot.py:162 | the basename is the suffix after the last `/` and holds no `/` |
| Paths.SplitExt | bot.py:152 | `name + extension` is the input, and the extension is empty or starts with its only dot and holds no `/` |
| Paths.SplitExtAtLastDot | bot.py:152 | a name with a non-dot character before its last dot has the text from that dot on as its extension |
| Paths.SplitExtHidden | bot.py:152 | a name such as `.mp3`, a dot followed by no further dot, has an empty extension |
| Paths.BasenameNoSlash | bot.py:162 | a path without `/` is its own basename |
| Paths.BasenameOfJoined | bot.py:162 | the basename of `dir/name` is `name` when `name` has no `/` |
| Telegram.OrElse | bot.py:130-131 | Python's `x or default` on an optional string: `None` and `""` both give the default, any other value is kept |
| Telegram.FirstPresent | bot.py:124 | `a or b or c` on optional attachments yields the first present one, and nothing only when all three are absent |
| JoinGate.NotJoined | bot.py:93-100 | the list of missing channels is never longer than the configuration |
| JoinGate.NotJoinedEmptyIff | bot.py:101-105 | the missing list is empty exactly when every configured channel passes the membership test |
| JoinGate.NotJoinedConcat | main.py:70-77 | filtering distributes over concatenation, so missing names keep configuration order |
| JoinGate.NotJoinedElements | main.py:70-77 | a name is reported missing exactly when it is the stripped form of a configured channel whose status is outside member/administrator/creator or whose lookup failed |
| JoinGate.NotJoinedSource | bot.py:96-100 | each missing name is the stripped form of a channel that does not pass |
| JoinGate.NotJoinedHas | bot.py:96-100 | the stripped name of every channel that does not pass is reported missing |
| JoinGate.NotJoinedExtend | bot.py:94-100 | asking about one more channel appends its stripped name exactly when it does not pass |
| JoinGate.JoinButtons | bot.py:102 | one button per missing channel, labelled `Join <name>`, linking to `https://t.me/` + the name with its leading `@`s removed: the link's tail is a suffix of the name, everything before it is `@`, and it does not start with `@` |
| JoinGate.CheckJoin | bot.py:90-105 | the loop grants access exactly when every channel passes, and otherwise sends the prompt with one button per missing channel in configuration order |
| JoinGate.SetChannels | main.py:42-52 | only the owner may act, no argument gives the usage line, and otherwise the new list joins back to the argument, has one entry more than it has commas, and holds no comma |
| JoinGate.SetChannelsThenGate | bot.py:72-100 | a list set from a whitespace-free argument is checked under its own names: every missing name is one of its fields |
| JoinGate.FieldsHaveNoSpace | bot.py:72 | every field of a whitespace-free joined string is whitespace-free |
| Encoder.ScaleFor | bot.py:110-116 | the scale is a table value, and an unknown resolution gets the 480p entry |
| Encoder.ScaleRows | bot.py:111-116 | the four table rows map 360/480/720/1080 to their scales, and each scale ends in `:` + the requested height |
| Encoder.CompressAudio | bot.py:107-108 | the audio encode reads the input, writes the output and sets only the given audio bitrate |
| Encoder.CompressVideo | bot.py:110-117 | the video encode uses the table scale, CRF 28, preset veryfast, AAC audio at 128k and no explicit video codec |
| Encoder.MainAudioCall | main.py:111-112 | main.py's audio encode uses a 64k audio bitrate |
| Encoder.MainVideoCall | main.py:113-114 | main.py's video encode uses libx264, CRF 28, preset veryfast and AAC audio at 64k, with no scaling |
| Encoder.OutputsMembers | bot.py:155-157 | a file is written by a batch of encoder calls exactly when it is one call's output |
| Encoder.OutputsConcat | bot.py:149-157 | running two batches writes the files of each |
| Storage.Outside | bot.py:164 | the files left by `rmtree(dir)` are exactly the earlier files not inside `dir` |
| Storage.Disk.Write | bot.py:138 | a download or an encoder run adds its path to the file set |
| Storage.Disk.WriteAll | bot.py:146-147 | `extractall` adds every extracted path |
| Storage.Disk.Remove | bot.py:182 | `os.remove` of an existing file removes exactly that path |
| Storage.Disk.RemoveTree | bot.py:164 | `rmtree` removes every file inside the folder and nothing else |
| Storage.Disk.RunAll | bot.py:149-157 | running the planned encoder calls one after another adds exactly their outputs |
| Walks.MapAllSpec | bot.py:149-158 | the list with one value per walked file has one element per file, the `i`th being the value of the `i`th file |
| Walks.Extend | bot.py:149-158 | taking one more walked file appends exactly that file's contribution to each list and to the set |
| Walks.SelectSetSource | bot.py:149-157 | each value of the selected set comes from a file that passes the test |
| Walks.SelectSetHas | bot.py:149-157 | every file that passes the test contributes its value to the selected set |
| Walks.SelectSetMembers | bot.py:149-157 | a value is in the selected set exactly when some file passing the test has it |
| Walks.SelectElements | bot.py:149-158 | the selected list and the selected set hold the same values |
| ArchiveEntries.KindByExtension | bot.py:154-156 | an entry's kind depends only on its lower-cased extension: audio iff it is in `.mp3/.wav/.aac`, video iff it is in `.mp4/.mkv/.mov` |
| ArchiveEntries.UnlistedExtension | bot.py:154-156 | an extension whose third character is not `p`, `a`, `k` or `o` is in neither extension list |
| ArchiveEntries.SplitStemExt | bot.py:152 | a stem without dot or slash followed by a one-dot extension splits at that dot |
| ArchiveEntries.UpperCaseExtensionIsMedia | bot.py:154 | a name such as `Song.MP3` is classified as audio because the extension is lower-cased |
| ArchiveEntries.M4aIsNotMedia | bot.py:154-156 | a `.m4a` name is in neither list, so such an entry is not encoded |
| ArchiveEntries.HiddenNameIsNotMedia | bot.py:152-156 | a file named just `.mp3` has no extension, so it is not encoded |
| ArchiveEntries.EntryOutputInCompressDir | bot.py:153 | every entry's output path lies in `compressed/` |
| ArchiveEntries.EntryOutputCollision | bot.py:153 | two entries share an output path exactly when their basenames are equal |
| ArchiveEntries.SameBasenameCollides | bot.py:149-153 | files of the same name in two folders, such as `a/clip.mp4` and `b/clip.mp4`, are both written to `compressed/compressed_` + that name |
| ArchiveEntries.EntryCall | bot.py:151-157 | a media entry gets one encode from the extracted path to its output path (audio at 128k, or video scaled to 854:480), and any other entry gets none |
| ArchiveEntries.CompressedJoin | bot.py:153 | `os.path.join("compressed", "compressed_" + b)` is `compressed/compressed_` + `b` |
| ArchiveEntries.EntryOutputByParts | bot.py:152-153 | `compressed/compressed_{name}{extension}` built from the split basename is `compressed/compressed_` + the basename |
| ArchiveEntries.EntryCallByParts | bot.py:151-157 | the call for an entry, stated through the loop's own values: the split basename, the joined output path and the lower-cased extension |
| ArchiveEntries.PlanEntry | bot.py:150-157 | one iteration of the walk loop chooses that entry's call and computes its output path |
| ArchiveEntries.PlainEntry | bot.py:152-156 | a name without `/` is encoded exactly when its own kind is media, and is written to `compressed/compressed_` + the name |
| ArchiveEntries.TxtIsNotMedia | bot.py:152-156 | a `.txt` file such as `notes.txt` is not encoded, and its listed output is `compressed/compressed_notes.txt` |
| ArchivePlan.MediaOutputsMembers | bot.py:153-157 | the files the walk encodes are exactly the output paths of its media entries |
| ArchivePlan.MediaOutputsInCompressDir | bot.py:153 | every encoded output lies in `compressed/` |
| ArchivePlan.PlanOutputs | bot.py:149-157 | the files the planned calls write are exactly the media entries' outputs |
| ArchivePlan.PlanPrefix | bot.py:149-158 | planning one more file appends that file's call, its output path, and (when it is media) its output to the media-only list |
| ArchivePlan.PlanArchive | bot.py:148-158 | the walk loop lists every file's output path, media or not, one per file in walk order, and makes the encoder calls of the media entries in walk order |
| ArchivePlan.WriteArchive | bot.py:160-162 | the archive write succeeds exactly when every listed path exists, and then holds one member per listed path, named by its basename |
| ArchivePlan.ArchiveMemberNames | bot.py:153-162 | each archive member is named `compressed_` + the entry's basename |
| ArchivePlan.MediaEntryOutputsWritten | bot.py:153-158 | every member of the media-only list was written by the encoder calls |
| ArchivePlan.PlanArchiveMediaOnly | bot.py:148-158 | the corrected walk loop makes the same calls and lists only the outputs of encoded files |
| BotHandler.PickMedia | bot.py:124 | the document wins over the video, which wins over the audio; the audio is picked when the other two are absent, and nothing is picked only when all three are absent |
| BotHandler.PathShapes | bot.py:130-137 | the download is `downloads/` + id + extension, the extension being empty or starting with `.`; the extract folder, the archive and the audio/video outputs have their fixed names |
| BotHandler.RoutePrecedence | bot.py:143-180 | `.zip` wins over any MIME type, then "audio" in the MIME type wins over "video", and everything else is unsupported, stated as four if-and-only-ifs |
| BotHandler.UnsupportedWithoutD | bot.py:167-180 | a non-archive whose MIME type lacks the letter `d` is unsupported |
| BotHandler.UpperCaseZipIsUnsupported | bot.py:143 | the extension test is case-sensitive: `.ZIP` with `application/zip` is unsupported |
| BotHandler.AudioBeforeVideo | bot.py:167-173 | outside archives, any MIME type naming both audio and video (`video/audio`, for example) is routed as audio |
| BotHandler.NonMediaEntryBreaksArchive | bot.py:158-162 | a non-media entry whose output path did not exist before and is not the archive makes the archive write raise; no media entry can have produced that path |
| BotHandler.TextEntryBreaksArchive | bot.py:158-162 | an archive holding just one `.txt` file, such as `notes.txt`, makes the handler raise |
| BotHandler.MediaOnlyArchiveWrites | bot.py:160-162 | with the media-only list every member exists when the archive is written |
| BotHandler.CompressedNotUnderDownloads | bot.py:164 | removing the extract folder never touches `compressed/` |
| BotHandler.ZipRunCleanup | bot.py:159-182 | after the archive is sent, the cleanup removes the extract folder, the archive and the download, and leaves the earlier files outside the folder plus every per-entry output |
| BotHandler.HandleMedia | bot.py:119-182 | each branch's replies, encoder calls and final file set. A closed gate prompts and changes nothing. A missing attachment is answered and changes nothing. Unsupported input removes its download. Audio/video removes the download and the output. An archive either raises (leaving everything) or sends the archive and keeps only the per-entry outputs |
| BotHandler.HandleArchive | bot.py:143-165 | the archive branch raises exactly when a listed output is missing; otherwise it sends the archive and leaves the earlier files outside the folder plus the encoded outputs |
| BotHandler.HandleArchiveCorrected | bot.py:143-165 | with the media-only list the archive branch always sends the archive and always cleans up |
| BotHandler.EncodeAndSend | bot.py:168-177 | an encode, send and remove step replies once, makes one call, and leaves the file set without the output |
| BotHandler.HandleSingle | bot.py:167-182 | the audio and video branches encode, send and remove both their files; the unsupported branch only removes the download |
| MainHandler.PickMainMedia | main.py:90 | audio wins over video, which wins over the document, the reverse of bot.py |
| MainHandler.SizeGuard | main.py:94-96 | only a size strictly above 104857600 bytes is refused, so exactly 100 MiB is accepted; below the limit the file is encoded as audio exactly when the MIME type mentions "audio", and as video otherwise |
| MainHandler.MainCall | main.py:104-114 | the encode reads the `downloads/` path and writes the `compressed/` path |
| MainHandler.MainInputExtShape | main.py:101-102 | the input extension is the MIME text after the last `/` and holds no `/`; `application/octet-stream` gives `octet-stream` and `audio/mpeg` gives `mpeg` |
| MainHandler.OctetStreamExt | main.py:101-102 | without a MIME type the download is named with `octet-stream` |
| MainHandler.MpegExt | main.py:102 | `audio/mpeg` gives the extension `mpeg` |
| MainHandler.MainBranchesAgree | main.py:105-119 | the output name, the encoder options and the kind of reply follow the same "audio" test: `.mp3`, 64k and `reply_audio`, or `.mp4`, libx264 and `reply_video` |
| MainHandler.MainPathsDiffer | main.py:104-105 | the download lies in `downloads/` and the output in `compressed/`, so they are different files |
| MainHandler.MainHandleMedia | main.py:86-122 | each outcome's replies, call and file set. A closed gate prompts. A missing attachment is answered. A missing size raises. Too large a file is refused. Otherwise the handler announces, encodes, sends and removes both files, so the file set returns to what it was when neither path existed before |

## Left out

- Telegram transport is not modelled. This covers `get_file`, `download_to_drive`, the `reply_*` calls, inline keyboards and `Application` setup. A download is a write of its path, and a reply is an element of the returned reply sequence.
- `ffmpeg` execution via `os.system` and its shell quoting are not modelled. The model assumes every encoder call writes its output path; the handlers ignore the exit status. When an encode fails (a `__MACOSX/._clip.mp4` resource-fork entry is classified as video, for example), no output exists, so the later `os.remove(out)` (bot.py:171, bot.py:177, main.py:122) or `zipf.write` (bot.py:162) raises and the cleanup after it is skipped. The model does not capture that outcome.
- `zipfile` internals are not modelled: a corrupt archive, members that escape the folder, and the archive contents themselves. The extracted files are a parameter (`walk`) listed in `os.walk` order, and the model does not check that the sequence matches the folder.
- `load_config`/`save_config`, `.env` loading and logging are left out. The channel list and the `via` name are parameters of the handlers.
- `start`, `set_start`, `set_start_image`, `set_via` and `help_command` are not part of this model, since they only read or write configuration. The confirmation text `Channels updated to: …` of `set_channels` is not modelled either.
- Async scheduling and concurrent handlers are left out. Each handler runs to completion on its own.
- Directories are not tracked. `os.makedirs(..., exist_ok=True)` never fails here, and `rmtree` removes the files below the folder.
- Exceptions are modelled only where the model can name the cause: the archive write of a missing file in bot.py, and a missing `file_size` in main.py. Download failures, encoder failures and a failed removal are not modelled.
- Text.LowerSpec: `str.lower` is modelled only for `A`–`Z` and the KELVIN SIGN, which lower-cases to `k`. Every other character is left unchanged. The result is compared only with the ASCII extensions `.mp3 .wav .aac .mp4 .mkv .mov`. No other character lower-cases to a string made only of ASCII characters, so the outcome of that comparison is the same as Python's.
- `.m4a` is not among the audio extensions (bot.py:154), and extraction has no guard against entries outside the folder (bot.py:147); the model follows the code.
- BotHandler.HandleMedia requires a well-formed `file_unique_id`: non-empty URL-safe base64, as Telegram issues it. An id starting with `/` would make `os.path.join` return an absolute path.

## Findings

| source | as written | input that shows it | evidently intended | confidence | as-written member | corrected member |
|---|---|---|---|---|---|---|
| bot.py:158-162 | every walked file's `compressed_` path is appended to the archive list, including files that were never encoded; `zipf.write` of such a path raises `FileNotFoundError`, so the user gets no reply and the download, extract folder and encoded outputs are left behind | a `.zip` holding only `notes.txt` (with no leftover `compressed/compressed_notes.txt`) | list, and archive, only the files that were encoded | not executed | BotHandler.TextEntryBreaksArchive | BotHandler.HandleArchiveCorrected |
