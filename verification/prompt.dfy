/** The `/prompt` command: defer, ask the text model, split the answer
    behind a bold prompt header into embed-sized chunks and send them in
    order, the first one as the deferred reply and the rest as follow-ups. */
module Prompt {
  import opened Text
  import opened Replies
  import opened Ai
  import Splitter

  const SystemInstruction: string :=
    "Return your response in markdown. Give as complete of an\n"
    + "answer as possible. Assume whoever you're talking to will not be able to respond back so do not ask\n"
    + "for follow-ups. Do not hallucinate."

  const ErrorText: string := "Sorry, there was an error processing your request."

  const ChunkColor: Color := Rgb(166, 227, 161)

  /** The bold prompt line and a blank line, placed before the answer: the
      prompt reads back from between the opening and closing markers. */
  function Header(prompt: string): (h: string)
    ensures StartsWith(h, "***") && |h| == |prompt| + 8
    ensures h[3..3 + |prompt|] == prompt && h[3 + |prompt|..] == "***\n\n"
  {
    AppendStartsWith("***", prompt + "***\n\n");
    "***" + prompt + "***\n\n"
  }

  /** The position indicator `i+1 / n`. */
  function Footer(i: nat, n: nat): string {
    Decimal(i + 1) + " / " + Decimal(n)
  }

  /** The leading number of a footer is the chunk's one-based position, so
      two chunks of one answer never carry the same footer. */
  lemma FooterPosition(i: nat, n: nat)
    ensures var f := Footer(i, n); var k := Digits(f); DecimalValue(f[..k]) == i + 1
  {
    var d := Decimal(i + 1);
    var f := Footer(i, n);
    assert f == d + (" / " + Decimal(n));
    DigitsOfAppend(d, " / " + Decimal(n));
    assert f[..|d|] == d;
    DecimalRoundTrip(i + 1);
  }

  lemma FootersDistinct(i: nat, j: nat, n: nat)
    requires i != j
    ensures Footer(i, n) != Footer(j, n)
  {
    FooterPosition(i, n);
    FooterPosition(j, n);
  }

  /** The length of the leading run of decimal digits. */
  function Digits(s: string): (k: nat)
    ensures k <= |s| && IsDigits(s[..k])
    ensures k < |s| ==> !('0' <= s[k] <= '9')
  {
    if s != [] && '0' <= s[0] <= '9' then
      var k := 1 + Digits(s[1..]);
      assert s[..k] == [s[0]] + s[1..][..k - 1];
      k
    else 0
  }

  lemma {:induction false} DigitsOfAppend(d: string, rest: string)
    requires IsDigits(d)
    requires rest != [] && !('0' <= rest[0] <= '9')
    ensures Digits(d + rest) == |d|
    decreases |d|
  {
    if d != [] {
      assert (d + rest)[1..] == d[1..] + rest;
      DigitsOfAppend(d[1..], rest);
    } else {
      assert d + rest == rest;
    }
  }

  // ---- TypeScript variant ----

  /** The embed for chunk `i`: its text as description, the prompt colour,
      and a footer only when there is more than one chunk. */
  function ChunkEmbed(chunks: seq<string>, i: nat): Embed
    requires i < |chunks|
  {
    EmptyEmbed.(
      color := Some(ChunkColor),
      description := Some(chunks[i]),
      footer := if |chunks| > 1 then Some(Footer(i, |chunks|)) else None)
  }

  /** Send `i` of the emission loop: the deferred reply is edited with the
      first chunk, the others are follow-ups. */
  function ChunkSend(chunks: seq<string>, i: nat): Action
    requires i < |chunks|
  {
    if i == 0 then EditReply(Card(ChunkEmbed(chunks, i))) else FollowUp(Card(ChunkEmbed(chunks, i)))
  }

  /** The first `count` sends of the emission loop. */
  function Emit(chunks: seq<string>, count: nat): seq<Action>
    requires count <= |chunks|
  {
    seq(count, i requires 0 <= i < count => ChunkSend(chunks, i))
  }

  datatype TsRun = TsRun(request: Request, trace: seq<Action>)

  predicate IsEmpty(chunk: string) {
    chunk == []
  }

  /** Where the emission loop throws, if it does: at the first send the
      platform rejects (`failedSend`), or earlier at the first empty chunk,
      whose embed the builder refuses because a description must hold at
      least one character. */
  function StopAt(chunks: seq<string>, failedSend: Option<nat>): (r: Option<nat>)
    ensures r.Some? <==> (failedSend.Some? && failedSend.value < |chunks|) || exists i :: 0 <= i < |chunks| && chunks[i] == []
    ensures r.Some? ==>
      && r.value < |chunks|
      && (chunks[r.value] == [] || failedSend == Some(r.value))
      && (forall j :: 0 <= j < r.value ==> chunks[j] != [])
      && (failedSend.Some? ==> r.value <= failedSend.value)
  {
    var empty := FindFirst(chunks, IsEmpty);
    if failedSend.Some? && failedSend.value < |chunks| && (empty.None? || failedSend.value < empty.value) then failedSend
    else empty
  }

  /** One invocation.  `failedSend` is the index of the first send that the
      platform rejects, if any; an empty chunk throws before its send.
      Either way the catch block edits the reply with the error text. */
  function ExecuteTs(prompt: string, answer: TextResult, failedSend: Option<nat>): TsRun {
    var request := Request(Some(SystemInstruction), prompt);
    match answer
    case TextErr => TsRun(request, [Defer, EditReply(Say(ErrorText))])
    case TextOk(response) =>
      var chunks := Splitter.SplitText(Header(prompt) + response);
      match StopAt(chunks, failedSend)
      case Some(k) => TsRun(request, [Defer] + Emit(chunks, k) + [EditReply(Say(ErrorText))])
      case None => TsRun(request, [Defer] + Emit(chunks, |chunks|))
  }

  /** The chunks a successful answer is sent as. */
  function Chunks(prompt: string, response: string): seq<string> {
    Splitter.SplitText(Header(prompt) + response)
  }

  /** The `***` header forces at least one chunk, and the first chunk, which
      opens with it, is never empty. */
  lemma ChunksNotEmpty(prompt: string, response: string)
    ensures |Chunks(prompt, response)| > 0 && Chunks(prompt, response)[0] != []
  {
    var h := Header(prompt);
    assert (h + response)[0] == '*';
    Splitter.SplitTextFirstChunk(h + response, Splitter.DefaultMaxLength);
  }

  /** From a deferred handle, the emission loop resolves it. */
  lemma {:induction false} EmitRuns(chunks: seq<string>, count: nat)
    requires 0 < count <= |chunks|
    ensures Run(Deferred, Emit(chunks, count)) == Some(Replied)
  {
    var e := Emit(chunks, count);
    assert e[1..] == Emit(chunks, count)[1..];
    forall i | 0 <= i < |e[1..]|
      ensures IsFollowUp(e[1..][i])
    {
      assert e[1..][i] == e[i + 1];
    }
    FollowUpsStayReplied(e[1..]);
  }

  /** A successful answer, every chunk holding text: defer, one edit with
      the first chunk, then one follow-up per further chunk, in order, each
      carrying its chunk and a footer exactly when there are several chunks;
      the handle is resolved. */
  lemma ExecuteTsSuccess(prompt: string, response: string)
    requires forall i :: 0 <= i < |Chunks(prompt, response)| ==> Chunks(prompt, response)[i] != []
    ensures var r := ExecuteTs(prompt, TextOk(response), None); var chunks := Chunks(prompt, response);
      && r.request == Request(Some(SystemInstruction), prompt)
      && |chunks| > 0
      && |r.trace| == |chunks| + 1
      && r.trace[0] == Defer
      && r.trace[1].EditReply?
      && (forall i :: 2 <= i < |r.trace| ==> r.trace[i].FollowUp?)
      && (forall i :: 1 <= i < |r.trace| ==> r.trace[i].p.embeds == [ChunkEmbed(chunks, i - 1)])
      && (forall i :: 1 <= i < |r.trace| ==>
            r.trace[i].p.embeds[0].description == Some(chunks[i - 1])
            && (r.trace[i].p.embeds[0].footer.Some? <==> |chunks| > 1))
      && Resolved(r.trace)
  {
    var chunks := Chunks(prompt, response);
    ChunksNotEmpty(prompt, response);
    assert !exists i :: 0 <= i < |chunks| && chunks[i] == [];
    assert StopAt(chunks, None) == None;
    var r := ExecuteTs(prompt, TextOk(response), None);
    assert r.trace == [Defer] + Emit(chunks, |chunks|);
    EmitRuns(chunks, |chunks|);
    assert r.trace[1..] == Emit(chunks, |chunks|);
  }

  /** An empty chunk after the first one throws inside the loop even when
      Discord accepts every send: the chunks before it were delivered, and
      the catch block then edits the answered reply a second time, which
      the lifecycle rejects. */
  lemma ExecuteTsEmptyChunk(prompt: string, response: string, k: nat)
    requires k < |Chunks(prompt, response)| && Chunks(prompt, response)[k] == []
    requires forall j :: 0 <= j < k ==> Chunks(prompt, response)[j] != []
    ensures var t := ExecuteTs(prompt, TextOk(response), None).trace;
      && k >= 1
      && t == [Defer] + Emit(Chunks(prompt, response), k) + [EditReply(Say(ErrorText))]
      && !Valid(t)
  {
    var chunks := Chunks(prompt, response);
    ChunksNotEmpty(prompt, response);
    var stop := StopAt(chunks, None);
    assert chunks[k] == [];
    assert stop.Some? && chunks[stop.value] == [];
    assert stop.value == k;
    StoppedLate(prompt, response, None);
  }

  /** A throw in the loop after the first chunk was delivered leaves a
      trace with two edits of the reply. */
  lemma StoppedLate(prompt: string, response: string, failedSend: Option<nat>)
    requires failedSend.None? || failedSend.value >= 1
    requires StopAt(Chunks(prompt, response), failedSend).Some?
    ensures var s := StopAt(Chunks(prompt, response), failedSend).value;
      var t := ExecuteTs(prompt, TextOk(response), failedSend).trace;
      && 1 <= s && |t| == s + 2
      && t[1].EditReply? && t[s + 1] == EditReply(Say(ErrorText))
      && !Valid(t)
  {
    ChunksNotEmpty(prompt, response);
    var s := StopAt(Chunks(prompt, response), failedSend).value;
    var t := ExecuteTs(prompt, TextOk(response), failedSend).trace;
    assert t == [Defer] + Emit(Chunks(prompt, response), s) + [EditReply(Say(ErrorText))];
    if Valid(t) {
      AtMostOneAnswer(Unacknowledged, t, 1, s + 1);
      assert false;
    }
  }

  /** An answer that fits in one embed is sent as a single edit, header
      included, without a footer. */
  lemma ExecuteTsShortAnswer(prompt: string, response: string)
    requires |Header(prompt) + response| <= Splitter.DefaultMaxLength
    ensures ExecuteTs(prompt, TextOk(response), None).trace
         == [Defer, EditReply(Card(EmptyEmbed.(color := Some(ChunkColor), description := Some(Header(prompt) + response))))]
  {
    var chunks := Chunks(prompt, response);
    assert chunks == [Header(prompt) + response];
    assert Emit(chunks, 1) == [ChunkSend(chunks, 0)];
  }

  /** A failed model call: defer, then the error text as the one edit. */
  lemma ExecuteTsModelError(prompt: string, failedSend: Option<nat>)
    ensures ExecuteTs(prompt, TextErr, failedSend).trace == [Defer, EditReply(Say(ErrorText))]
    ensures Resolved(ExecuteTs(prompt, TextErr, failedSend).trace)
  {
    var t := ExecuteTs(prompt, TextErr, failedSend).trace;
    assert Run(Deferred, t[1..]) == Run(Replied, []);
  }

  /** When the first edit itself fails, the catch block's edit is the only
      answer and the handle is still resolved. */
  lemma ExecuteTsFirstSendFails(prompt: string, response: string)
    ensures ExecuteTs(prompt, TextOk(response), Some(0)).trace == [Defer, EditReply(Say(ErrorText))]
  {
    ChunksNotEmpty(prompt, response);
    assert Emit(Chunks(prompt, response), 0) == [];
  }

  /** When a follow-up fails after the first chunk was delivered, the catch
      block edits the already answered reply a second time, so the
      delivered first chunk gains the error text: the trace breaks the
      one-answer rule of the lifecycle.  An empty chunk before the failing
      send throws first, at its own index. */
  lemma ExecuteTsFollowUpFails(prompt: string, response: string, k: nat)
    requires 1 <= k < |Chunks(prompt, response)|
    ensures var t := ExecuteTs(prompt, TextOk(response), Some(k)).trace;
      var s := StopAt(Chunks(prompt, response), Some(k)).value;
      && 1 <= s <= k && |t| == s + 2
      && t[1].EditReply? && t[s + 1] == EditReply(Say(ErrorText))
      && ((forall j :: 0 <= j < k ==> Chunks(prompt, response)[j] != []) ==> s == k)
      && !Valid(t)
  {
    StoppedLate(prompt, response, Some(k));
  }

  // ---- Rust variant ----

  /** The Rust embed for chunk `i`: a footer unless there is exactly one chunk. */
  function RsEmbed(chunks: seq<string>, i: nat): Embed
    requires i < |chunks|
  {
    EmptyEmbed.(
      color := Some(ChunkColor),
      description := Some(chunks[i]),
      footer := if |chunks| != 1 then Some(Footer(i, |chunks|)) else None)
  }

  /** The Rust run: the text handed to the splitter (if the model answered),
      the reply actions, and whether the command returned `Ok`. */
  datatype RsRun = RsRun(request: Request, splitInput: Option<string>, trace: seq<Action>, ok: bool)

  /** One invocation.  The markdown splitter is a foreign library and is a
      parameter; `failedSend` is the index of the first send that fails, at
      which the sequential stream stops and the error propagates. */
  function ExecuteRs(prompt: string, answer: TextResult, split: string -> seq<string>, failedSend: Option<nat>): RsRun {
    var request := Request(Some(SystemInstruction), prompt);
    match answer
    case TextErr => RsRun(request, None, [Defer], false)
    case TextOk(response) =>
      var text := Header(prompt) + response;
      var chunks := split(text);
      var sends := seq(|chunks|, i requires 0 <= i < |chunks| => PoiseSend(Deferred, Card(RsEmbed(chunks, i))));
      if failedSend.Some? && failedSend.value < |chunks| then
        RsRun(request, Some(text), [Defer] + sends[..failedSend.value], false)
      else
        RsRun(request, Some(text), [Defer] + sends, true)
  }

  /** The model error propagates after the defer and before any chunk. */
  lemma ExecuteRsModelError(prompt: string, split: string -> seq<string>, failedSend: Option<nat>)
    ensures var r := ExecuteRs(prompt, TextErr, split, failedSend);
      r.trace == [Defer] && !r.ok && r.splitInput == None
  {
  }

  /** A successful run: the header-prefixed answer is split, and every chunk
      is sent in index order, each with a footer exactly when the chunk count
      is not one; the handle is resolved exactly when there was a chunk. */
  lemma ExecuteRsSuccess(prompt: string, response: string, split: string -> seq<string>)
    ensures var r := ExecuteRs(prompt, TextOk(response), split, None);
      var chunks := split(Header(prompt) + response);
      && r.ok
      && r.splitInput == Some(Header(prompt) + response)
      && |r.trace| == |chunks| + 1 && r.trace[0] == Defer
      && (forall i :: 1 <= i < |r.trace| ==> r.trace[i] == FollowUp(Card(RsEmbed(chunks, i - 1))))
      && (forall i :: 1 <= i < |r.trace| ==>
            r.trace[i].p.embeds[0].description == Some(chunks[i - 1])
            && (r.trace[i].p.embeds[0].footer.Some? <==> |chunks| != 1))
      && (Resolved(r.trace) <==> |chunks| > 0)
  {
    var r := ExecuteRs(prompt, TextOk(response), split, None);
    var chunks := split(Header(prompt) + response);
    var sends := r.trace[1..];
    forall i | 0 <= i < |sends|
      ensures IsFollowUp(sends[i])
    {
      assert sends[i] == r.trace[i + 1];
    }
    if |chunks| > 0 {
      assert Run(Unacknowledged, r.trace) == Run(Deferred, sends);
      assert Run(Deferred, sends) == Run(Replied, sends[1..]);
      assert forall i :: 0 <= i < |sends[1..]| ==> sends[1..][i] == sends[i + 1];
      FollowUpsStayReplied(sends[1..]);
    } else {
      assert r.trace == [Defer];
      assert Run(Unacknowledged, r.trace) == Run(Deferred, []);
    }
  }

  /** A failed send stops the stream: exactly the chunks before it were
      sent, in order, and the command returns an error. */
  lemma ExecuteRsSendFails(prompt: string, response: string, split: string -> seq<string>, k: nat)
    requires k < |split(Header(prompt) + response)|
    ensures var r := ExecuteRs(prompt, TextOk(response), split, Some(k));
      var chunks := split(Header(prompt) + response);
      && !r.ok && |r.trace| == k + 1
      && (forall i :: 1 <= i < |r.trace| ==> r.trace[i] == FollowUp(Card(RsEmbed(chunks, i - 1))))
  {
  }
}
