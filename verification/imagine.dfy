/** The `/imagine` command: defer, ask the image model for a picture of the
    prompt and edit the deferred reply with it, or with an error embed. */
module Imagine {
  import opened Text
  import opened Replies
  import opened Ai

  const FileName: string := "image.png"

  const ErrorTitle: string := "Error imagining image"

  const ErrorText: string := "Failed to imagine image. Try altering the prompt or trying again later."

  /** The prompt sent to the model, the reply actions and the image attached. */
  datatype ImagineRun = ImagineRun(request: string, trace: seq<Action>, attached: Option<Bytes>)

  function ErrorCard(): Payload {
    Card(Titled(ErrorTitle, ErrorText, ErrorColor))
  }

  /** `editOk` says whether Discord accepted the edit carrying the picture;
      a rejected edit is caught like a failure of the model, and the
      deferred reply is edited with the error embed instead. */
  function Execute(prompt: string, answer: ImageResult, editOk: bool): ImagineRun {
    match answer
    case ImageOk(data) =>
      var embed := EmptyEmbed.(title := Some("Imagine"), description := Some(prompt),
                               color := Some(PrimaryColor), image := Some("attachment://" + FileName));
      if editOk then ImagineRun(prompt, [Defer, EditReply(Payload(None, [embed], [FileName], false))], Some(data))
      else ImagineRun(prompt, [Defer, EditReply(ErrorCard())], None)
    case ImageErr =>
      ImagineRun(prompt, [Defer, EditReply(ErrorCard())], None)
  }

  /** Defer, then exactly one accepted edit of the deferred reply; the
      picture is attached exactly when the model produced one and Discord
      took the edit, and the embed shows the attached file under the
      prompt; otherwise the user sees the error embed. */
  lemma ExecuteOutcomes(prompt: string, answer: ImageResult, editOk: bool)
    ensures var r := Execute(prompt, answer, editOk);
      && r.request == prompt
      && |r.trace| == 2 && r.trace[0] == Defer && r.trace[1].EditReply? && Resolved(r.trace)
      && |r.trace[1].p.embeds| == 1
      && (r.attached.Some? <==> answer.ImageOk? && editOk)
      && (r.attached.Some? ==> r.attached == Some(answer.data) && r.trace[1].p.files == [FileName])
      && (r.attached.Some? ==> r.trace[1].p.embeds[0].image == Some("attachment://" + FileName))
      && (r.attached.Some? ==> r.trace[1].p.embeds[0].description == Some(prompt))
      && (r.attached.None? ==> r.trace[1].p.files == [] && r.trace[1].p.embeds[0].color == Some(ErrorColor))
  {
    var r := Execute(prompt, answer, editOk);
    RunShort(r.trace[0], r.trace[1]);
  }
}
