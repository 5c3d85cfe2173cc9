/** The parts of a Telegram update the two handlers read, and the replies
    they send. Transport itself (downloads, uploads, markup rendering) is
    outside the model; a reply is recorded as a value. */
module Telegram {

  datatype Option<+T> = None | Some(value: T)

  /** An attached audio, video or document, with the optional fields of the
      Bot API. */
  datatype Media = Media(
    fileName: Option<string>,
    mimeType: Option<string>,
    fileUniqueId: string,
    fileSize: Option<int>)

  /** A message carries at most these three kinds of attachment. */
  datatype Message = Message(document: Option<Media>, video: Option<Media>, audio: Option<Media>)

  /** Characters of a `file_unique_id`: the URL-safe base64 alphabet. */
  predicate IsIdChar(c: char) {
    ('a' <= c <= 'z') || ('A' <= c <= 'Z') || ('0' <= c <= '9') || c == '-' || c == '_'
  }

  /** A `file_unique_id` as Telegram issues it: non-empty, URL-safe base64. */
  predicate IsFileId(s: string) {
    |s| > 0 && forall i :: 0 <= i < |s| ==> IsIdChar(s[i])
  }

  predicate WellFormedMedia(m: Option<Media>) {
    m.Some? ==> IsFileId(m.value.fileUniqueId)
  }

  predicate WellFormed(msg: Message) {
    WellFormedMedia(msg.document) && WellFormedMedia(msg.video) && WellFormedMedia(msg.audio)
  }

  /** Python's `a or b` where `a` is an optional string: `None` and `""`
      are both falsy. */
  function OrElse(a: Option<string>, fallback: string): (r: string)
    ensures a.Some? && a.value != "" ==> r == a.value
    ensures a.None? || a.value == "" ==> r == fallback
  {
    if a.Some? && a.value != "" then a.value else fallback
  }

  /** `media.mime_type or "application/octet-stream"`, as both handlers
      read it. */
  function MimeOf(m: Media): string {
    OrElse(m.mimeType, "application/octet-stream")
  }

  /** Python's `a or b or c` on optional attachments. */
  function FirstPresent(a: Option<Media>, b: Option<Media>, c: Option<Media>): (r: Option<Media>)
    ensures r.None? <==> a.None? && b.None? && c.None?
    ensures r.Some? ==> r == a || r == b || r == c
    ensures a.Some? ==> r == a
    ensures a.None? && b.Some? ==> r == b
    ensures a.None? && b.None? ==> r == c
  {
    if a.Some? then a else if b.Some? then b else c
  }

  /** An inline keyboard button that opens a URL. */
  datatype Button = Button(text: string, url: string)

  /** What a handler sends back. */
  datatype Reply =
    | Text(text: string)
    | Prompt(text: string, buttons: seq<Button>)
    | SendDocument(path: string, caption: string)
    | SendAudio(path: string, caption: string)
    | SendVideo(path: string, caption: string)
}
