/** The `!remix` prefix command: validate the instructions and the replied-to
    message, take the first image from its attachments (or, failing that,
    from its embeds), ask the image model to edit it and reply with the
    result.  Both the TypeScript and the Rust version are modelled; every
    path of either answers with exactly one reply to the message. */
module Remix {
  import opened Text
  import opened Replies
  import opened Ai

  /** The result of downloading a URL: whether the status was a success
      (2xx), the body, the `content-type` header and the MIME type sniffed
      from the body's magic bytes; or a failure with no response to read
      (unreachable host, unreadable body). */
  datatype Download = Downloaded(ok: bool, data: Bytes, header: Option<string>, sniffed: Option<string>) | DownloadFailed

  datatype Attachment = Attachment(contentType: Option<string>, download: Download)

  /** An embed's image: its URL (empty when missing) and what downloading it gives. */
  datatype EmbedImage = EmbedImage(url: string, download: Download)

  /** The replied-to message: its attachments, and its embeds' images in
      order (`None` for an embed without an image). */
  datatype Referenced = Referenced(attachments: seq<Attachment>, embedImages: seq<Option<EmbedImage>>)

  predicate IsImageAttachment(a: Attachment) {
    a.contentType.Some? && StartsWith(a.contentType.value, "image/")
  }

  predicate HasImage(e: Option<EmbedImage>) {
    e.Some?
  }

  const FileName: string := "image.png"

  const EmptyPromptTitle: string := "Error"

  const NoReferenceText: string := "Please reply to a message with an image to remix it."

  const NoImageTitle: string := "Error getting image"

  const NoImageText: string := "Could not extract image from the referenced message."

  // ---- TypeScript variant ----

  const EmptyPromptTextTs: string := "Please provide instructions on how to remix."

  const GenericErrorText: string := "There was an error processing the remix command."

  /** The image found in the replied-to message, no image, or a thrown error. */
  datatype Extract = Image(mimeType: string, data: Bytes) | NoImage | Failed

  /** The instructions: the message with a leading `!remix` and the
      whitespace after it removed (case-sensitively), then trimmed. */
  function PromptTs(content: string): (prompt: string)
    ensures prompt == [] || (!IsSpace(prompt[0]) && !IsSpace(prompt[|prompt| - 1]))
  {
    if StartsWith(content, "!remix") then Trim(TrimStart(content[6..])) else Trim(content)
  }

  /** The first attachment whose content type is an image type; a download
      that fails or answers with an error status throws. */
  function AttachmentImageTs(m: Referenced): Extract {
    match FindFirst(m.attachments, IsImageAttachment)
    case None => NoImage
    case Some(i) =>
      var a := m.attachments[i];
      match a.download
      case DownloadFailed => Failed
      case Downloaded(ok, data, _, _) => if ok then Image(a.contentType.value, data) else Failed
  }

  /** The first embed with an image: no URL or no `content-type` header
      gives no image, a download that fails or answers with an error status
      throws; the header is taken as the MIME type without checking it. */
  function EmbedImageTs(m: Referenced): Extract {
    match FindFirst(m.embedImages, HasImage)
    case None => NoImage
    case Some(j) =>
      var e := m.embedImages[j].value;
      if e.url == [] then NoImage
      else match e.download
        case DownloadFailed => Failed
        case Downloaded(ok, data, header, _) =>
          if !ok then Failed
          else if header.None? || header.value == [] then NoImage
          else Image(header.value, data)
  }

  /** The embeds are looked at only when no attachment gave an image. */
  function ImageTs(m: Referenced): Extract {
    var fromAttachments := AttachmentImageTs(m);
    if fromAttachments.NoImage? then EmbedImageTs(m) else fromAttachments
  }

  /** Whether the command message replies to another message, and whether
      fetching that message succeeded. */
  datatype Reference = NoReference | Unavailable | Available(message: Referenced)

  /** What one invocation asked the image model, the replies it sent and the
      image it attached. */
  datatype RemixRun = RemixRun(request: Option<EditRequest>, replies: seq<Payload>, attached: Option<Bytes>)

  function ErrorCard(title: string, text: string): Payload {
    Card(Titled(title, text, ErrorColor))
  }

  /** `replyOk` says whether Discord accepted the reply sent inside the
      `try` (the missing-image error or the edited image); a rejected one is
      caught and answered with the generic error. */
  function ExecuteTs(content: string, reference: Reference, answer: ImageResult, replyOk: bool): RemixRun {
    var prompt := PromptTs(content);
    var caught := ErrorCard("Error", GenericErrorText);
    if prompt == [] then RemixRun(None, [ErrorCard(EmptyPromptTitle, EmptyPromptTextTs)], None)
    else match reference
      case NoReference => RemixRun(None, [ErrorCard("Error", NoReferenceText)], None)
      case Unavailable => RemixRun(None, [caught], None)
      case Available(m) =>
        match ImageTs(m)
        case Failed => RemixRun(None, [caught], None)
        case NoImage => RemixRun(None, [if replyOk then ErrorCard(NoImageTitle, NoImageText) else caught], None)
        case Image(mimeType, data) =>
          var request := EditRequest(prompt, mimeType, data);
          match answer
          case ImageErr => RemixRun(Some(request), [caught], None)
          case ImageOk(out) =>
            if replyOk then RemixRun(Some(request), [Payload(None, [], [FileName], false)], Some(out))
            else RemixRun(Some(request), [caught], None)
  }

  /** Every path ends with exactly one accepted reply; the image model is
      asked exactly when there are instructions, a reachable replied-to
      message and an image in it, and the reply carries the edited image
      exactly when the model produced one and Discord took the reply. A
      rejected reply inside the `try` turns into the generic error.  Each
      failure has its own message: the missing instructions and the missing
      reference are checked before the `try`, no image found has its own
      card, and an unreachable message, a failed download or a model error
      is caught and answered with the generic error. */
  lemma ExecuteTsOutcomes(content: string, reference: Reference, answer: ImageResult, replyOk: bool)
    ensures var r := ExecuteTs(content, reference, answer, replyOk);
      && |r.replies| == 1
      && (r.request.Some? <==> PromptTs(content) != [] && reference.Available? && ImageTs(reference.message).Image?)
      && (r.request.Some? ==> r.request.value == EditRequest(PromptTs(content), ImageTs(reference.message).mimeType, ImageTs(reference.message).data))
      && (r.attached.Some? <==> r.request.Some? && answer.ImageOk? && replyOk)
      && (r.attached.Some? ==> r.attached.value == answer.data && r.replies[0].files == [FileName])
      && (r.attached.None? ==> |r.replies[0].embeds| == 1 && r.replies[0].embeds[0].color == Some(ErrorColor))
      && (!replyOk && PromptTs(content) != [] && reference.Available? ==> r.replies == [ErrorCard("Error", GenericErrorText)])
    ensures var r := ExecuteTs(content, reference, answer, replyOk); var prompt := PromptTs(content);
      && (prompt == [] ==> r.replies == [ErrorCard(EmptyPromptTitle, EmptyPromptTextTs)])
      && (prompt != [] && reference.NoReference? ==> r.replies == [ErrorCard("Error", NoReferenceText)])
      && (prompt != [] && reference.Unavailable? ==> r.replies == [ErrorCard("Error", GenericErrorText)])
      && (prompt != [] && reference.Available? && ImageTs(reference.message).Failed? ==> r.replies == [ErrorCard("Error", GenericErrorText)])
      && (prompt != [] && reference.Available? && ImageTs(reference.message).NoImage? && replyOk ==> r.replies == [ErrorCard(NoImageTitle, NoImageText)])
      && (r.request.Some? && answer.ImageErr? ==> r.replies == [ErrorCard("Error", GenericErrorText)])
  {
    var prompt := PromptTs(content);
    var r := ExecuteTs(content, reference, answer, replyOk);
    var caught := ErrorCard("Error", GenericErrorText);
    if prompt == [] {
      assert r == RemixRun(None, [ErrorCard(EmptyPromptTitle, EmptyPromptTextTs)], None);
    } else {
      match reference
      case NoReference =>
        assert r == RemixRun(None, [ErrorCard("Error", NoReferenceText)], None);
      case Unavailable =>
        assert r == RemixRun(None, [caught], None);
      case Available(m) =>
        match ImageTs(m)
        case Failed =>
          assert r == RemixRun(None, [caught], None);
        case NoImage =>
          assert r.request.None? && r.attached.None?;
        case Image(mimeType, data) =>
          var request := EditRequest(prompt, mimeType, data);
          if answer.ImageOk? && replyOk {
            assert r == RemixRun(Some(request), [Payload(None, [], [FileName], false)], Some(answer.data));
          } else {
            assert r == RemixRun(Some(request), [caught], None);
          }
    }
  }

  /** The instructions are checked before the reply reference: without them
      the answer is the same whatever was replied to. */
  lemma EmptyPromptFirst(content: string, reference: Reference, answer: ImageResult, replyOk: bool)
    requires PromptTs(content) == []
    ensures ExecuteTs(content, reference, answer, replyOk).replies == [ErrorCard("Error", EmptyPromptTextTs)]
  {
  }

  /** The command word is removed with the whitespace after it. */
  lemma PromptTsDropsCommand(p: string)
    ensures PromptTs("!remix " + p) == Trim(p)
  {
    var content := "!remix " + p;
    AppendStartsWith("!remix", " " + p);
    assert content == "!remix" + (" " + p);
    assert content[6..] == " " + p;
    assert TrimStart(" " + p) == TrimStart(p) by {
      assert (" " + p)[1..] == p;
    }
    TrimIgnoresLeadingSpace(p);
  }

  lemma TrimIgnoresLeadingSpace(s: string)
    ensures Trim(TrimStart(s)) == Trim(s)
  {
    var t := TrimStart(s);
    assert t == [] || !IsSpace(t[0]);
    assert TrimStart(t) == t;
  }

  /** The removal is case-sensitive: the dispatcher accepts `!REMIX`, but the
      command word then stays in the instructions. */
  lemma PromptTsKeepsUpperCaseCommand()
    ensures PromptTs("!REMIX blue") == "!REMIX blue"
  {
    var s := "!REMIX blue";
    assert s[1] == 'R' && "!remix"[1] == 'r';
    assert !StartsWith(s, "!remix");
    assert !IsSpace(s[0]) && !IsSpace(s[|s| - 1]);
    TrimKeepsTrimmed(s);
  }

  /** An image attachment wins: the embeds are then never consulted, and the
      MIME type is that attachment's image content type. */
  lemma AttachmentBeforeEmbed(m: Referenced, embeds: seq<Option<EmbedImage>>)
    requires exists i :: 0 <= i < |m.attachments| && IsImageAttachment(m.attachments[i])
    ensures ImageTs(m) == ImageTs(m.(embedImages := embeds))
    ensures ImageTs(m).Image? ==> StartsWith(ImageTs(m).mimeType, "image/")
    ensures var i := FindFirst(m.attachments, IsImageAttachment).value;
      ImageTs(m).Image? <==> m.attachments[i].download.Downloaded? && m.attachments[i].download.ok
  {
  }

  /** Whatever the replied-to message holds, the image sent to the model is
      one of its attachments (with its content type) or the download of its
      first embed image. */
  lemma ImageTsSource(m: Referenced)
    requires ImageTs(m).Image?
    ensures var x := ImageTs(m);
      || (exists i :: 0 <= i < |m.attachments| && m.attachments[i].contentType == Some(x.mimeType)
                     && m.attachments[i].download.Downloaded? && m.attachments[i].download.ok
                     && m.attachments[i].download.data == x.data)
      || (exists j :: 0 <= j < |m.embedImages| && m.embedImages[j].Some?
                     && m.embedImages[j].value.download.Downloaded? && m.embedImages[j].value.download.ok
                     && m.embedImages[j].value.download.data == x.data
                     && m.embedImages[j].value.download.header == Some(x.mimeType))
  {
    var x := ImageTs(m);
    if AttachmentImageTs(m).NoImage? {
      var j := FindFirst(m.embedImages, HasImage).value;
      assert m.embedImages[j].Some?;
    } else {
      var i := FindFirst(m.attachments, IsImageAttachment).value;
      assert m.attachments[i].contentType == Some(x.mimeType);
    }
  }

  // ---- Rust variant ----

  const EmptyPromptTextRs: string := "Please instructions on how to remix."

  const ModelErrorTitle: string := "Error remixing image"

  const ModelErrorText: string := "Failed to generate the remixed image. Try altering the remix prompt."

  /** The first image attachment; a failed download gives no image, but an
      error status does not: its body is taken as the image. */
  function AttachmentImageRs(m: Referenced): Option<(string, Bytes)> {
    match FindFirst(m.attachments, IsImageAttachment)
    case None => None
    case Some(i) =>
      var a := m.attachments[i];
      match a.download
      case DownloadFailed => None
      case Downloaded(_, data, _, _) => Some((a.contentType.value, data))
  }

  /** The first embed with an image; a failed download gives no image, and
      so does a body whose sniffed type is unknown or not an image type,
      whatever the status. */
  function EmbedImageRs(m: Referenced): Option<(string, Bytes)> {
    match FindFirst(m.embedImages, HasImage)
    case None => None
    case Some(j) =>
      match m.embedImages[j].value.download
      case DownloadFailed => None
      case Downloaded(_, data, _, sniffed) =>
        if sniffed.None? || !StartsWith(sniffed.value, "image/") then None else Some((sniffed.value, data))
  }

  function ImageRs(m: Referenced): Option<(string, Bytes)> {
    match AttachmentImageRs(m)
    case Some(x) => Some(x)
    case None => EmbedImageRs(m)
  }

  /** The Rust version only ever sends an image type to the model. */
  lemma ImageRsIsImage(m: Referenced)
    ensures ImageRs(m).Some? ==> StartsWith(ImageRs(m).value.0, "image/")
  {
  }

  /** Unlike the Rust version, the TypeScript version trusts an embed's
      `content-type` header: an HTML page behind an embed image is sent to
      the model, where the Rust version finds no image. */
  lemma EmbedMimeChecks()
    ensures var page := Downloaded(true, [0x3C], Some("text/html"), None);
      var m := Referenced([], [Some(EmbedImage("https://example.com", page))]);
      ImageTs(m) == Image("text/html", [0x3C]) && ImageRs(m) == None
  {
    var page := Downloaded(true, [0x3C], Some("text/html"), None);
    var m := Referenced([], [Some(EmbedImage("https://example.com", page))]);
    assert HasImage(m.embedImages[0]);
    assert FindFirst(m.embedImages, HasImage) == Some(0);
  }

  /** `prompt` is the rest of the message as the framework parses it (`None`
      when empty), `referenced` the replied-to message, and `colorIndex`
      the random pick among the colours. */
  function ExecuteRs(prompt: Option<string>, referenced: Option<Referenced>, answer: ImageResult, colorIndex: nat): RemixRun
    requires colorIndex < |AccentColors|
  {
    match prompt
    case None => RemixRun(None, [ErrorCard("Error", EmptyPromptTextRs)], None)
    case Some(p) =>
      match referenced
      case None => RemixRun(None, [ErrorCard("Error", NoReferenceText)], None)
      case Some(m) =>
        match ImageRs(m)
        case None => RemixRun(None, [ErrorCard(NoImageTitle, NoImageText)], None)
        case Some((mimeType, data)) =>
          var request := EditRequest(p, mimeType, data);
          match answer
          case ImageErr => RemixRun(Some(request), [ErrorCard(ModelErrorTitle, ModelErrorText)], None)
          case ImageOk(out) =>
            var embed := EmptyEmbed.(title := Some("Remix!"), description := Some(p),
                                     color := Some(AccentColors[colorIndex]), image := Some("attachment://" + FileName));
            RemixRun(Some(request), [Payload(None, [embed], [FileName], false)], Some(out))
  }

  /** Every path sends exactly one reply with one embed.  Each failure has
      its own message, in the order the checks run: no instructions, no
      replied-to message, no image in it, then a model error; a success
      carries the edited image under the title `Remix!`, with the
      instructions as description, in an accent colour. */
  lemma ExecuteRsOutcomes(prompt: Option<string>, referenced: Option<Referenced>, answer: ImageResult, colorIndex: nat)
    requires colorIndex < |AccentColors|
    ensures var r := ExecuteRs(prompt, referenced, answer, colorIndex);
      && |r.replies| == 1 && |r.replies[0].embeds| == 1
      && (r.request.Some? <==> prompt.Some? && referenced.Some? && ImageRs(referenced.value).Some?)
      && (r.request.Some? ==> StartsWith(r.request.value.mimeType, "image/") && r.request.value.prompt == prompt.value)
      && (r.attached.Some? <==> r.request.Some? && answer.ImageOk?)
      && (r.attached.Some? ==> r.attached.value == answer.data && r.replies[0].files == [FileName])
      && (r.attached.Some? ==> r.replies[0].embeds[0].description == prompt && r.replies[0].embeds[0].color.value in AccentColors)
      && (r.attached.None? ==> r.replies[0].embeds[0].color == Some(ErrorColor) && r.replies[0].files == [])
    ensures var r := ExecuteRs(prompt, referenced, answer, colorIndex);
      && (prompt.None? ==> r.replies == [ErrorCard("Error", EmptyPromptTextRs)])
      && (prompt.Some? && referenced.None? ==> r.replies == [ErrorCard("Error", NoReferenceText)])
      && (prompt.Some? && referenced.Some? && ImageRs(referenced.value).None? ==> r.replies == [ErrorCard(NoImageTitle, NoImageText)])
      && (r.request.Some? && answer.ImageErr? ==> r.replies == [ErrorCard(ModelErrorTitle, ModelErrorText)])
      && (r.attached.Some? ==> r.replies[0].embeds[0].title == Some("Remix!"))
  {
    if prompt.Some? && referenced.Some? {
      ImageRsIsImage(referenced.value);
    }
  }

  /** On a replied-to message whose first image attachment downloads with
      a success status, both versions send the model the same image. */
  lemma VersionsAgreeOnAttachments(m: Referenced)
    requires AttachmentImageRs(m).Some?
    requires m.attachments[FindFirst(m.attachments, IsImageAttachment).value].download.ok
    ensures ImageTs(m) == Image(ImageRs(m).value.0, ImageRs(m).value.1)
  {
  }

  /** An error status on the attachment is a thrown error to the TypeScript
      version; the Rust version sends the error body to the model as the
      image, labelled with the attachment's content type. */
  lemma NotOkAttachmentDiverges()
    ensures var m := Referenced([Attachment(Some("image/png"), Downloaded(false, [0x3C], Some("text/html"), None))], []);
      ImageTs(m) == Failed && ImageRs(m) == Some(("image/png", [0x3C]))
  {
    var m := Referenced([Attachment(Some("image/png"), Downloaded(false, [0x3C], Some("text/html"), None))], []);
    assert "image/png"[..6] == "image/";
    assert IsImageAttachment(m.attachments[0]);
    assert FindFirst(m.attachments, IsImageAttachment) == Some(0);
  }
}
