/** The `/chat` command: defer, read the last hundred messages of the
    channel, render them oldest first as one line each (author name, minute
    stamp, bot flag, content), ask the text model to join the conversation
    and post its answer.  Both the TypeScript and the Rust version are
    modelled; they differ in how a name is chosen, how lines are joined,
    which failures are answered and which reply primitive is used. */
module Chat {
  import opened Text
  import opened Replies
  import opened Ai

  const SystemInstruction: string :=
    "You are a Discord bot named slowpoke. You are named after\n"
    + "the Pokémon Slowpoke. Respond to the Discord messages in the channel. You will be able to see up to\n"
    + "the last 100 messages in the channel. The messages will be in chronological order. Each message will\n"
    + "be given in the following format:\n"
    + "\n"
    + "```\n"
    + "[name: {author name}][time: {timestamp of when message was sent}][isBot: false]: {message_content}\n"
    + "```\n"
    + "\n"
    + "The following is a real world example of two messages:\n"
    + "\n"
    + "```\n"
    + "[name: Soonay][time: 2025-05-30T19:15Z][isBot: false]: Hello, how are you?\n"
    + "[name: Money Money][time: 2025-05-30T19:16Z][isBot: false]: I'm good how are you?\n"
    + "```\n"
    + "\n"
    + "The name and time blocks show the name the person who sent the message and the timestamp in UTC\n"
    + "that the message was sent. Sometimes, channels will include messages from bots. The isBot block\n"
    + "shows if the message was sent by a bot or not. You can also use this to determine if a message in\n"
    + "the channel was sent by you. For example, a message sent by you would look like this since your\n"
    + "name is slowpoke and you are a discord bot:\n"
    + "\n"
    + "```\n"
    + "[name: slowpoke][time: 2024-03-14T08:11Z][isBot: true]: Hi! I'm slowpoke, a Discord bot!\n"
    + "```\n"
    + "\n"
    + "Generate a response to participate in the conversation. The output of your response should just be\n"
    + "the text of the message. For example, if the message says:\n"
    + "\n"
    + "```\n"
    + "[name: jeph][time: 2025-01-20T16:32Z][isBot: false]: Hi slowpoke! How are you doing?\n"
    + "```\n"
    + "\n"
    + "Your response should be in the following format without the code block:\n"
    + "\n"
    + "```\n"
    + "I'm good jeph! How are you doing?\n"
    + "```\n"
    + "\n"
    + "You may see up to the last 100 messages in the channel, but you should only respond to the most\n"
    + "recent messages that are relevant to the conversation. For example:\n"
    + "\n"
    + "```\n"
    + "[name: Soonay][time: 2024-01-20T19:15Z][isBot: false]: I like ice cream, do you like ice cream?\n"
    + "[name: Money Money][time: 2025-05-30T19:16Z][isBot: false]: How are you doing today?\n"
    + "```\n"
    + "\n"
    + "You would respond to Money Money and ignore Soonay because their question was over a year ago and\n"
    + "no longer relevant to the conversation. You would say something like the following and ignore the\n"
    + "question about ice cream:\n"
    + "\n"
    + "```\n"
    + "I'm doing great! Thanks for asking.\n"
    + "```\n"
    + "\n"
    + "Aside from the examples responses above (which are meant to be used as a guide and not taken\n"
    + "literally), here are some general guidelines on how to respond:\n"
    + "- Respond in a way that you think would be appropriate for the conversation.\n"
    + "- Try to be helpful. If people are arguing, try to diffuse the situation or resolve the conflict.\n"
    + "- If people are asking questions, try to answer them.\n"
    + "- Be a bit edgy. Not every message needs to be positive, friendly, or politically correct.\n"
    + "- Find opprotunities to roast and troll people.\n"
    + "- Use emojis, but don't overuse them. Not every message needs an emoji.\n"
    + "\n"

  const NoMessagesText: string := "No messages found in this channel."

  const PermissionText: string :=
    "Ah! I'm not able to see the messages in this chat. You might need to add me to the chat or channel before I can chat with you."

  const ErrorText: string := "Sorry, there was an error processing the chat request."

  /** The Discord error code for missing access. */
  const MissingAccess: int := 50001

  datatype Author = Author(id: nat, globalName: Option<string>, username: string, bot: bool)

  /** A channel message; `iso` is its creation time as an ISO-8601 UTC text
      (`YYYY-MM-DDTHH:MM:SS.sssZ`). */
  datatype Msg = Msg(author: Author, content: string, iso: string)

  /** Why a request to Discord failed: an error response of the Discord API
      (with its JSON error code), an HTTP failure without such a response
      (the connection, an unreadable body), or anything else. */
  datatype FetchError = ApiError(code: int) | HttpFailure | OtherFailure

  /** The channel history, newest message first as the API returns it. */
  datatype Fetch = Fetched(newestFirst: seq<Msg>) | FetchFailed(error: FetchError)

  /** Where the command was used: in a guild, with the display names of the
      authors whose member lookup succeeded, or outside any guild. */
  datatype Place = Guild(displayNames: map<nat, string>) | DirectMessage

  function Reverse<T>(s: seq<T>): (r: seq<T>)
    ensures |r| == |s|
    ensures forall i :: 0 <= i < |s| ==> r[i] == s[|s| - 1 - i]
  {
    if s == [] then [] else Reverse(s[1..]) + [s[0]]
  }

  /** The minute stamp: the date and the time up to the minutes, then `Z`. */
  function Minute(iso: string): string {
    Prefix(iso, 16) + "Z"
  }

  function BoolText(b: bool): string {
    if b then "true" else "false"
  }

  /** One transcript line for a message written by `name`. */
  function Line(name: string, m: Msg): string {
    "[name: " + name + "][time: " + Minute(m.iso) + "][isBot: " + BoolText(m.author.bot) + "]: " + m.content
  }

  // ---- TypeScript variant ----

  /** The first non-empty of the guild display name, the global name and the
      username (JavaScript `||` also skips an empty string). */
  function NameTs(place: Place, a: Author): (name: string)
    ensures place.Guild? && a.id in place.displayNames && place.displayNames[a.id] != [] ==> name == place.displayNames[a.id]
    ensures name == a.username || (a.globalName.Some? && name == a.globalName.value) || (place.Guild? && a.id in place.displayNames && name == place.displayNames[a.id])
    ensures name == [] ==> a.username == []
    ensures !(place.Guild? && a.id in place.displayNames && place.displayNames[a.id] != []) && a.globalName.Some? && a.globalName.value != []
            ==> name == a.globalName.value
    ensures !(place.Guild? && a.id in place.displayNames && place.displayNames[a.id] != []) && !(a.globalName.Some? && a.globalName.value != [])
            ==> name == a.username
  {
    if place.Guild? && a.id in place.displayNames && place.displayNames[a.id] != [] then place.displayNames[a.id]
    else if a.globalName.Some? && a.globalName.value != [] then a.globalName.value
    else a.username
  }

  function LinesTs(place: Place, chronological: seq<Msg>): (r: seq<string>)
    ensures |r| == |chronological|
    ensures forall i :: 0 <= i < |r| ==> r[i] == Line(NameTs(place, chronological[i].author), chronological[i])
  {
    seq(|chronological|, i requires 0 <= i < |chronological| => Line(NameTs(place, chronological[i].author), chronological[i]))
  }

  /** The prompt sent to the model: the lines, oldest first, joined by newlines. */
  function TranscriptTs(place: Place, newestFirst: seq<Msg>): string
    requires |newestFirst| > 0
  {
    Join(LinesTs(place, Reverse(newestFirst)), '\n')
  }

  /** What one invocation asked the model, if anything, and how it answered
      the user. */
  datatype ChatRun = ChatRun(request: Option<Request>, trace: seq<Action>)

  /** The text the handler answers a caught error with: missing access
      has its own text, every other error the generic one. */
  function CaughtTs(e: FetchError): (text: string)
    ensures text == PermissionText <==> e == ApiError(MissingAccess)
    ensures text == PermissionText || text == ErrorText
  {
    if e == ApiError(MissingAccess) then PermissionText else ErrorText
  }

  /** Whether the handler gets as far as editing the deferred reply inside
      its `try`: with no channel, with an empty history, or with the
      model's answer. */
  predicate EditsInTry(channel: Option<Fetch>, answer: TextResult) {
    channel.None? || (channel.value.Fetched? && (channel.value.newestFirst == [] || answer.TextOk?))
  }

  /** `channel` is `None` when the interaction has no channel; `sendError`
      is what Discord answered to the edit made inside the `try` (`None`
      when it was accepted).  A rejected edit is caught like a failed read. */
  function ExecuteTs(channel: Option<Fetch>, place: Place, answer: TextResult, sendError: Option<FetchError>): (r: ChatRun)
    ensures |r.trace| == 2 && r.trace[0] == Defer && r.trace[1].EditReply?
  {
    match channel
    case None => ChatRun(None, [Defer, EditReply(Say(EditOrCaught(NoMessagesText, sendError)))])
    case Some(FetchFailed(e)) => ChatRun(None, [Defer, EditReply(Say(CaughtTs(e)))])
    case Some(Fetched(ms)) =>
      if ms == [] then ChatRun(None, [Defer, EditReply(Say(EditOrCaught(NoMessagesText, sendError)))])
      else
        var request := Request(Some(SystemInstruction), TranscriptTs(place, ms));
        match answer
        case TextOk(text) => ChatRun(Some(request), [Defer, EditReply(Say(EditOrCaught(text, sendError)))])
        case TextErr => ChatRun(Some(request), [Defer, EditReply(Say(ErrorText))])
  }

  /** The text the user ends up with when the handler tries to edit the
      reply to `text`. */
  function EditOrCaught(text: string, sendError: Option<FetchError>): string {
    match sendError
    case None => text
    case Some(e) => CaughtTs(e)
  }

  /** The model is asked exactly when messages were read, and the user gets
      its answer exactly when it produced one; every other path ends in one
      of three fixed texts, chosen by the cause. */
  lemma ExecuteTsOutcomes(channel: Option<Fetch>, place: Place, answer: TextResult, sendError: Option<FetchError>)
    ensures var r := ExecuteTs(channel, place, answer, sendError);
      var said := r.trace[1].p;
      && (r.request.Some? <==> channel.Some? && channel.value.Fetched? && channel.value.newestFirst != [])
      && (r.request.Some? ==> r.request.value.systemInstruction == Some(SystemInstruction))
      && (r.request.Some? && answer.TextOk? && sendError.None? ==> said == Say(answer.text))
      && (r.request.Some? && answer.TextErr? ==> said == Say(ErrorText))
      && (r.request.None? && EditsInTry(channel, answer) && sendError.None? ==> said == Say(NoMessagesText))
      && (channel.Some? && channel.value.FetchFailed? ==> said == Say(CaughtTs(channel.value.error)))
      && (EditsInTry(channel, answer) && sendError.Some? ==> said == Say(CaughtTs(sendError.value)))
      && (!EditsInTry(channel, answer) ==> ExecuteTs(channel, place, answer, None) == r)
      && Resolved(r.trace)
  {
    var r := ExecuteTs(channel, place, answer, sendError);
    RunShort(r.trace[0], r.trace[1]);
  }

  // ---- Rust variant ----

  /** The guild display name when the lookup succeeded, even if empty, then
      the global name, then the username. */
  function NameRs(place: Place, a: Author): (name: string)
    ensures place.Guild? && a.id in place.displayNames ==> name == place.displayNames[a.id]
    ensures !(place.Guild? && a.id in place.displayNames) && a.globalName.Some? ==> name == a.globalName.value
    ensures !(place.Guild? && a.id in place.displayNames) && a.globalName.None? ==> name == a.username
  {
    if place.Guild? && a.id in place.displayNames then place.displayNames[a.id]
    else match a.globalName
      case Some(g) => g
      case None => a.username
  }

  /** Each line followed by a newline, appended in order. */
  function Terminated(lines: seq<string>): string {
    if lines == [] then [] else lines[0] + "\n" + Terminated(lines[1..])
  }

  function LinesRs(place: Place, chronological: seq<Msg>): (r: seq<string>)
    ensures |r| == |chronological|
    ensures forall i :: 0 <= i < |r| ==> r[i] == Line(NameRs(place, chronological[i].author), chronological[i])
  {
    seq(|chronological|, i requires 0 <= i < |chronological| => Line(NameRs(place, chronological[i].author), chronological[i]))
  }

  function TranscriptRs(place: Place, newestFirst: seq<Msg>): string {
    Terminated(LinesRs(place, Reverse(newestFirst)))
  }

  /** What one invocation asked the model, how it answered the user and
      whether the command returned `Ok`. */
  datatype ChatRsRun = ChatRsRun(request: Option<Request>, trace: seq<Action>, ok: bool)

  /** `sendOk` says whether Discord accepted the one message the command
      sends; a rejected send ends the command with an error. */
  function ExecuteRs(fetch: Fetch, place: Place, answer: TextResult, sendOk: bool): (r: ChatRsRun)
    ensures 0 < |r.trace| <= 2 && r.trace[0] == Defer
    ensures |r.trace| == 2 <==> r.ok
  {
    match fetch
    case FetchFailed(OtherFailure) => ChatRsRun(None, [Defer], false)
    case FetchFailed(_) =>
      if sendOk then ChatRsRun(None, [Defer, PoiseSend(Deferred, Say(PermissionText))], true)
      else ChatRsRun(None, [Defer], false)
    case Fetched(ms) =>
      var request := Request(Some(SystemInstruction), TranscriptRs(place, ms));
      match answer
      case TextOk(text) =>
        if sendOk then ChatRsRun(Some(request), [Defer, PoiseSend(Deferred, Say(text))], true)
        else ChatRsRun(Some(request), [Defer], false)
      case TextErr => ChatRsRun(Some(request), [Defer], false)
  }

  /** The model is asked whenever the history was read, even when it is
      empty; every HTTP error, whatever its cause, is answered as missing
      access; the answer is a follow-up to the deferred response; the
      command fails exactly when the read fails otherwise, the model fails
      or the one send is rejected. */
  lemma ExecuteRsOutcomes(fetch: Fetch, place: Place, answer: TextResult, sendOk: bool)
    ensures var r := ExecuteRs(fetch, place, answer, sendOk);
      && (r.request.Some? <==> fetch.Fetched?)
      && (fetch.Fetched? && fetch.newestFirst == [] ==> r.request.value.prompt == [])
      && (r.request.Some? ==> r.request.value.systemInstruction == Some(SystemInstruction))
      && (r.ok <==> sendOk && ((fetch.Fetched? && answer.TextOk?) || (fetch.FetchFailed? && !fetch.error.OtherFailure?)))
      && (r.ok && fetch.Fetched? ==> r.trace == [Defer, FollowUp(Say(answer.text))])
      && (r.ok && fetch.FetchFailed? ==> r.trace == [Defer, FollowUp(Say(PermissionText))])
      && (!r.ok ==> r.trace == [Defer])
      && Valid(r.trace)
      && (Resolved(r.trace) <==> r.ok)
  {
    var r := ExecuteRs(fetch, place, answer, sendOk);
    RunShort(Defer, if r.ok then r.trace[1] else Defer);
  }

  /** A read that fails without an answer from the Discord API is a generic
      error to the TypeScript version and missing access to the Rust one. */
  lemma HttpFailureAnsweredDifferently(place: Place, answer: TextResult, sendError: Option<FetchError>)
    ensures ExecuteTs(Some(FetchFailed(HttpFailure)), place, answer, sendError).trace[1] == EditReply(Say(ErrorText))
    ensures ExecuteRs(FetchFailed(HttpFailure), place, answer, true).trace[1] == FollowUp(Say(PermissionText))
  {
  }

  // ---- the transcript and its lines ----

  /** Nothing in a message breaks its line: no newline in the chosen name,
      the timestamp or the content. */
  predicate OneLine(name: string, m: Msg) {
    '\n' !in name && '\n' !in m.iso && '\n' !in m.content
  }

  lemma LineHasNoNewline(name: string, m: Msg)
    requires OneLine(name, m)
    ensures '\n' !in Line(name, m)
  {
    var p := Prefix(m.iso, 16);
    assert forall k :: 0 <= k < |p| ==> p[k] == m.iso[k];
    assert '\n' !in Minute(m.iso);
    assert '\n' !in BoolText(m.author.bot);
  }

  /** Read back line by line, the TypeScript transcript holds one line per
      message, the oldest first. */
  lemma TranscriptTsLines(place: Place, newestFirst: seq<Msg>)
    requires |newestFirst| > 0
    requires forall i :: 0 <= i < |newestFirst| ==> OneLine(NameTs(place, newestFirst[i].author), newestFirst[i])
    ensures var lines := SplitOn(TranscriptTs(place, newestFirst), '\n');
      var n := |newestFirst|;
      && |lines| == n
      && forall k :: 0 <= k < n ==> lines[k] == Line(NameTs(place, newestFirst[n - 1 - k].author), newestFirst[n - 1 - k])
  {
    var chronological := Reverse(newestFirst);
    var lines := LinesTs(place, chronological);
    forall k | 0 <= k < |lines|
      ensures '\n' !in lines[k]
    {
      LineHasNoNewline(NameTs(place, chronological[k].author), chronological[k]);
    }
    SplitOnJoin(lines, '\n');
  }

  lemma {:induction false} TerminatedJoin(lines: seq<string>)
    ensures Terminated(lines) == Join(lines + [""], '\n')
    decreases |lines|
  {
    if lines != [] {
      TerminatedJoin(lines[1..]);
      assert (lines + [""])[1..] == lines[1..] + [""];
    }
  }

  /** Read back line by line, the Rust transcript holds one line per
      message, the oldest first, and ends with a newline (so an empty
      history gives an empty prompt). */
  lemma TranscriptRsLines(place: Place, newestFirst: seq<Msg>)
    requires forall i :: 0 <= i < |newestFirst| ==> OneLine(NameRs(place, newestFirst[i].author), newestFirst[i])
    ensures var lines := SplitOn(TranscriptRs(place, newestFirst), '\n');
      var n := |newestFirst|;
      && |lines| == n + 1 && lines[n] == []
      && forall k :: 0 <= k < n ==> lines[k] == Line(NameRs(place, newestFirst[n - 1 - k].author), newestFirst[n - 1 - k])
  {
    var chronological := Reverse(newestFirst);
    var lines := LinesRs(place, chronological);
    forall k | 0 <= k < |lines + [""]|
      ensures '\n' !in (lines + [""])[k]
    {
      if k < |lines| {
        LineHasNoNewline(NameRs(place, chronological[k].author), chronological[k]);
      }
    }
    TerminatedJoin(lines);
    SplitOnJoin(lines + [""], '\n');
  }

  /** The two versions pick the same name unless the name they settle on is
      empty: the TypeScript one then falls through to the next candidate. */
  lemma NamesAgree(place: Place, a: Author)
    requires place.Guild? && a.id in place.displayNames ==> place.displayNames[a.id] != []
    requires a.globalName.Some? ==> a.globalName.value != []
    ensures NameTs(place, a) == NameRs(place, a)
  {
  }

  /** An empty display name: the Rust version renders an empty name, the
      TypeScript version the username. */
  lemma NamesDifferOnEmptyDisplayName()
    ensures var a := Author(7, None, "slowbro", false);
      var place := Guild(map[7 := ""]);
      NameRs(place, a) == "" && NameTs(place, a) == "slowbro"
  {
  }

  lemma {:induction false} TerminatedIsJoinPlusNewline(lines: seq<string>)
    requires |lines| > 0
    ensures Terminated(lines) == Join(lines, '\n') + "\n"
    decreases |lines|
  {
    if |lines| > 1 {
      TerminatedIsJoinPlusNewline(lines[1..]);
    } else {
      assert lines[1..] == [];
    }
  }

  /** When both versions choose the same names, the Rust prompt is the
      TypeScript prompt with one more newline. */
  lemma TranscriptsAgree(place: Place, newestFirst: seq<Msg>)
    requires |newestFirst| > 0
    requires forall i :: 0 <= i < |newestFirst| ==> NameTs(place, newestFirst[i].author) == NameRs(place, newestFirst[i].author)
    ensures TranscriptRs(place, newestFirst) == TranscriptTs(place, newestFirst) + "\n"
  {
    var chronological := Reverse(newestFirst);
    assert LinesRs(place, chronological) == LinesTs(place, chronological);
    TerminatedIsJoinPlusNewline(LinesTs(place, chronological));
  }
}
