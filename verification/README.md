# slowpoke, modelled in Dafny

slowpoke is a Discord bot with two generations: a TypeScript one on
discord.js (`src/main.ts` and the older `src/index.ts`) and a Rust one on
poise/serenity. It answers slash commands (`/prompt`, `/chat`, `/tfti`,
`/8ball`, `/roll`, `/imagine`), the prefix command `!remix`, and it sometimes
"chimes in" on ordinary messages with a deez-nuts joke. Almost all of it is
plumbing to Discord and Gemini. Beneath the plumbing sits a set of sequential
decision rules, and this project states and proves those.

Each command's `execute` is a pure function. Its inputs are:

- the user's input;
- the outcomes of the external calls it makes: the fetched messages, the model's
  answer (`TextOk(text) | TextErr`, `ImageOk(bytes) | ImageErr`), Discord error
  codes, whether Discord accepted a send, and random draws.

Its output is the **trace of reply actions** it performs: `Defer`, `Reply(p)`,
`EditReply(p)` and `FollowUp(p)`. Alongside the trace come the request it sent
to the model and, for the Rust commands, whether the command returned `Ok`.

An interaction's reply handle is a small state machine, `Replies.Step`:

- an unacknowledged handle may be deferred or replied to;
- a deferred one may be edited or followed up;
- a replied one may only be followed up.

Most command lemmas prove that every path of the command produces a trace that
this machine accepts and that ends in `Replied`.

Modules, one per source concern:

| module | file | what |
|---|---|---|
| `Text` | text.dfy | strings: trimming, whitespace removal, joins and splits on a separator, decimal rendering, ASCII lower case |
| `Replies` | replies.dfy | embeds, payloads, reply actions, the reply lifecycle and poise's `send` |
| `Ai` | ai.dfy | the model requests and the abstract model outcomes |
| `Chance` | chance.dfy | `Math.floor(Math.random() * n)` as a function of a draw in [0, 1) |
| `Splitter` | splitter.dfy | `splitText` of prompt.ts |
| `Prompt` | prompt.dfy | `/prompt`, TypeScript and Rust |
| `Dispatch` | dispatch.dfy | the interaction and message handlers of main.ts and index.ts |
| `Chat` | chat.dfy | `/chat`, TypeScript and Rust |
| `Tfti` | tfti.dfy | `/tfti`, TypeScript and Rust |
| `Remix` | remix.dfy | `!remix`, TypeScript and Rust |
| `EightBall`, `Roll`, `Imagine`, `DeezNuts` | eightball.dfy, roll.dfy, imagine.dfy, deeznuts.dfy | the small commands and the chime-in |

## Model

| member | source | states |
|---|---|---|
| Splitter.SplitTextShort | src/commands/prompt.ts:10-13 | a text no longer than the limit comes back as the single chunk `[text]`, untrimmed |
| Splitter.SplitTextBounded | src/commands/prompt.ts:19-46 | every chunk, whether packed from lines or hard-cut, is at most `maxLength` long |
| Splitter.SplitTextKeepsContent | src/commands/prompt.ts:15-48 | only whitespace is lost: the chunks concatenated, with all whitespace removed, equal the input with all whitespace removed |
| Splitter.CutRoundTrip | src/commands/prompt.ts:28-35 | the full-size pieces cut from an over-long line, followed by the carried remainder, reassemble the line |
| Splitter.SplitTextSingleLine | src/commands/prompt.ts:26-35 | an over-long text without newlines becomes its trimmed `maxLength` pieces followed by the trimmed remainder |
| Splitter.SplitTextSingleLineCount | src/commands/prompt.ts:27-35 | such a text yields exactly ⌈length / maxLength⌉ chunks |
| Splitter.SplitTextNotEmpty | src/commands/prompt.ts:17-46 | a non-empty text whose first character is not a newline yields at least one chunk |
| Splitter.SplitTextFirstChunk | src/commands/prompt.ts:17-46 | a text that opens with a non-space character yields a first chunk that is not empty, whatever its later lines hold |
| Splitter.SplitTextOnlyNewlines | src/commands/prompt.ts:17-46 | every text longer than the limit and made only of newlines yields no chunk at all: its lines are all empty and never start a chunk |
| Splitter.PackLineGreedy | src/commands/prompt.ts:19-41 | pushed chunks are never revisited; a chunk is pushed only when the line does not fit with its newline, and then it is the current chunk trimmed; a line that fits is appended to the current chunk |
| Splitter.SplitTextCanEmitEmptyChunk | src/commands/prompt.ts:29-30 | a whitespace-only hard-cut piece trims to an empty chunk, so chunks are not always non-empty |
| Prompt.Header | src/commands/prompt.ts:74 | the header is `***`, the prompt, then `***` and a blank line: the prompt reads back from between the markers |
| Prompt.FooterPosition | src/commands/prompt.ts:84-86 | the number a footer opens with, read back as decimal, is the chunk's one-based position |
| Prompt.FootersDistinct | src/commands/prompt.ts:84-86 | two chunks of one answer never carry the same footer |
| Prompt.ChunksNotEmpty | src/commands/prompt.ts:74-77 | the header makes the split answer at least one chunk long, and that first chunk is never empty |
| Prompt.StopAt | src/commands/prompt.ts:79-93 | the send loop throws at the first rejected send or, earlier, at the first empty chunk, whose `setDescription` the embed builder refuses; every chunk before that point holds text |
| Prompt.EmitRuns | src/commands/prompt.ts:79-93 | editing the deferred reply with the first chunk and following up with the rest is a lifecycle-valid run ending replied |
| Prompt.ExecuteTsSuccess | src/commands/prompt.ts:62-93 | when every chunk holds text and every send is accepted, the trace is `Defer`, one `EditReply`, then one `FollowUp` per further chunk in order, each embed carrying its chunk; footers iff more than one chunk; handle ends replied |
| Prompt.ExecuteTsShortAnswer | src/commands/prompt.ts:74-89 | a short answer is one edit carrying header plus answer in the green embed, without footer |
| Prompt.ExecuteTsModelError | src/commands/prompt.ts:94-97 | a model failure edits the deferred reply with the apology text and nothing else |
| Prompt.ExecuteTsFirstSendFails | src/commands/prompt.ts:88-97 | when the first edit fails the apology replaces it |
| Prompt.ExecuteTsEmptyChunk | src/commands/prompt.ts:79-97 | an empty chunk throws even when every send is accepted: the chunks before it are delivered, then the catch issues a second `editReply`, which the lifecycle rejects |
| Prompt.ExecuteTsFollowUpFails | src/commands/prompt.ts:90-97 | when a follow-up fails, or an empty chunk before it throws first, the catch issues a second `editReply`, overwriting the first chunk, which the lifecycle rejects |
| Prompt.ExecuteRsModelError | src/commands/prompt.rs:20-32 | the defer comes first and a model error propagates before anything is split or sent |
| Prompt.ExecuteRsSuccess | src/commands/prompt.rs:34-68 | the splitter gets `***prompt***\n\n` + answer; one send per chunk in order, each with its chunk and a footer iff the count is not 1; resolved iff there is a chunk |
| Prompt.ExecuteRsSendFails | src/commands/prompt.rs:60-66 | sending stops at the first failed send, which makes the command fail |
| Replies.PoiseSend | src/commands/prompt.rs:63 | poise's send is the initial reply exactly on an unacknowledged handle and otherwise a follow-up, and always answers the handle |
| Replies.DeferredNeverReplies | src/commands/chat.ts:79-127 | once deferred, a valid invocation never calls `reply` |
| Replies.AtMostOneAnswer | src/commands/prompt.ts:88-92 | a valid trace holds at most one `reply`/`editReply`; everything after it is a follow-up |
| Dispatch.NamedCommand | src/main.ts:54-62 | a name denotes at most the one command declaring it |
| Dispatch.NamesDistinct | src/main.ts:54-62 | the declared names are pairwise different, so keying by name loses no command |
| Dispatch.Lookup | src/main.ts:83-84 | a registry lookup finds a registered command with that name, or says that no registered command has it |
| Dispatch.LookupByName | src/main.ts:54-68 | looking a name up in a registry is: the command of that name, if it is registered |
| Dispatch.PrefixRegistry | src/main.ts:64-68 | the prefix registry answers `remix` and nothing else |
| Dispatch.MainDispatchesRegistered | src/main.ts:80-87 | an interaction is dispatched iff it is a chat-input command whose name is a registered slash command (all but remix), and to that command |
| Dispatch.MainErrorPath | src/main.ts:86-97 | execute is not awaited: only a synchronous throw adds the error reply, which then resolves a valid trace; otherwise the command's own trace stands |
| Dispatch.ErrorReply | src/main.ts:90-96 | the ephemeral error answer is allowed in every lifecycle state and always leaves the handle replied; it is the send poise would choose: `followUp` once replied or deferred, `reply` otherwise |
| Dispatch.ErrorReplyResolves | src/main.ts:92-96 | appending the error reply to any valid trace leaves the handle replied |
| Dispatch.IndexDispatch | src/index.ts:82-106 | the older registry serves exactly ping, 8ball, prompt, chat, tfti and imagine; prompt and chat get the text client, imagine the imagen client; every failure is awaited and answered with the error reply |
| Dispatch.SplitSpaceRuns | src/main.ts:122 | splitting on space runs yields at least one token and no token holds a space |
| Dispatch.ParsePrefixTokens | src/main.ts:122-124 | the command name is empty exactly when only whitespace follows `!`; no token holds a space; with a name, no argument is empty |
| Dispatch.ParsePrefixRoundTrip | src/main.ts:119-123 | `!` + lower-case name + space-joined words parses back into that name and those arguments |
| Dispatch.SplitSpaceRunsOfWords | src/main.ts:122 | splitting space-joined non-empty words gives the words back |
| Dispatch.MainMessageDispatch | src/main.ts:117-130 | a message is dispatched iff its author is not a bot and it parses with command name `remix`; the remaining tokens are the arguments |
| Dispatch.MainNeverAnswersFailure | src/main.ts:86-97 | with `async` commands, which never throw synchronously, a dispatched interaction's trace is exactly the command's own: main.ts never sends its error reply |
| Dispatch.MainNeverAnswersPrefixFailure | src/main.ts:129-134 | with an `async` remix command the message's replies are exactly the command's own: main.ts never sends its error reply to a message |
| Dispatch.MessageHandlersAgree | src/index.ts:110-127 | both generations route the same messages; only the older one answers an asynchronous remix failure with the error text |
| Chat.Reverse | src/commands/chat.ts:90 | the transcript order is the fetch order reversed |
| Chat.NameTs | src/commands/chat.ts:109-111 | the name is one of the three candidates: a non-empty display name wins, then a non-empty global name, then the username; it is empty only when the username is |
| Chat.ExecuteTs | src/commands/chat.ts:79-127 | defer, then exactly one accepted `editReply`, whichever edit inside the `try` was rejected |
| Chat.ExecuteTsOutcomes | src/commands/chat.ts:77-128 | the model is asked iff messages were fetched; an accepted edit shows the answer or, with no channel or no messages, the no-messages text; a failed read or a rejected edit shows the permission text for code 50001 and the error text otherwise; a model failure shows the error text; always resolved |
| Chat.TranscriptTsLines | src/commands/chat.ts:90-114 | when no name, timestamp or content contains a newline, the transcript cut at newlines gives back exactly one line per message, oldest first, with no trailing newline |
| Chat.ExecuteRs | src/commands/chat.rs:12-88 | defer first, and a second action exactly when the command succeeds |
| Chat.ExecuteRsOutcomes | src/commands/chat.rs:12-89 | every HTTP error of the read, whatever its cause, sends the permission text and returns Ok; other read errors, model errors and a rejected send make the command fail with only the defer sent; the answer goes out in one unsplit follow-up; resolved iff Ok |
| Chat.HttpFailureAnsweredDifferently | src/commands/chat.rs:23-32 | a read that fails without a Discord API error response gets the error text from the TypeScript version and the permission text from the Rust one |
| Chat.TranscriptRsLines | src/commands/chat.rs:60-78 | when no name, timestamp or content contains a newline, the transcript cut at newlines gives one line per message, oldest first, then the empty piece after the final newline |
| Chat.NamesAgree | src/commands/chat.rs:61-68 | the two generations pick the same name whenever no candidate is empty |
| Chat.NamesDifferOnEmptyDisplayName | src/commands/chat.ts:109-111 | with an empty display name the TypeScript name falls through and the Rust name stays empty |
| Chat.TranscriptsAgree | src/commands/chat.rs:60-78 | with equal names the Rust transcript is the TypeScript one plus a newline |
| Tfti.Streak | src/commands/tfti.rs:16-25 | the count is the length of the longest matching prefix: the first k match, the next does not |
| Tfti.StreakOfPrefix | src/commands/tfti.ts:12-30 | counting over the first `limit` fetched messages gives the streak capped at `limit` |
| Tfti.StreakGrows | src/commands/tfti.ts:18-29 | a matching newest message adds exactly one to the streak |
| Tfti.MultiplierTs | src/commands/tfti.ts:12-30 | the multiplier is in [0, 9] |
| Tfti.EmbedTsThanks | src/commands/tfti.ts:32-95 | every step's description starts with `Thanks for the invite, asshole`, under a title containing `😤 Tfti` |
| Tfti.ExecuteTs | src/commands/tfti.ts:9-102 | exactly one accepted `reply` per invocation; it is the error text iff the read failed or the reply with the embed was rejected |
| Tfti.ExecuteTsResolves | src/commands/tfti.ts:98-101 | that reply answers the interaction; when it is not the error it is the embed for the streak of the messages read |
| Tfti.TitleTsMatches | src/commands/tfti.ts:20-21 | every title contains `😤 Tfti`, so the bot's own answer matches the next count |
| Tfti.StreakExtendsTs | src/commands/tfti.ts:12-30 | after the bot's answer the next multiplier is one more, capped at 9 |
| Tfti.UnknownBotNeverCounts | src/commands/tfti.ts:19 | without a known bot user nothing matches |
| Tfti.TitlesTsDistinct | src/commands/tfti.ts:35-95 | the ten steps have ten different titles |
| Tfti.MultiplierRs | src/commands/tfti.rs:12-25 | the multiplier is at most 18 |
| Tfti.EmbedRsThanks | src/commands/tfti.rs:27-67 | every step's description starts with `Thanks for the invite, asshole.`, under a title starting with `Tfti` |
| Tfti.ExecuteRs | src/commands/tfti.rs:11-72 | a fetch error propagates with nothing sent; otherwise exactly one send |
| Tfti.TitleRsMatches | src/commands/tfti.rs:19-20 | every title starts with `Tfti` |
| Tfti.StreakExtendsRs | src/commands/tfti.rs:12-25 | after the bot's answer the next multiplier is one more, capped at 18 |
| Tfti.VersionsIgnoreEachOther | src/commands/tfti.rs:20 | neither generation's titles match the other's rule |
| Tfti.RsTitleHasNoEmoji | src/commands/tfti.rs:29-65 | no Rust title holds the 😤 the TypeScript rule looks for |
| Text.FindFirst | src/commands/remix.ts:80-82 | the chosen index is the first that satisfies the test, and none means no element does |
| Remix.PromptTs | src/commands/remix.ts:10 | the prompt is trimmed on both sides |
| Remix.ExecuteTsOutcomes | src/commands/remix.ts:9-72 | exactly one accepted reply on every path; the model is asked iff there is a prompt, a reachable replied-to message and an image in it; the image is attached iff the model produced one and the reply was accepted; a rejected reply inside the `try` becomes the generic error; every failure is one error-coloured embed with its own message: the empty-instructions text, the no-reference text, "Error getting image" when no image is found and the reply is accepted, and the generic error for an unreachable message, a failed download, a model error or a rejected reply |
| Remix.EmptyPromptFirst | src/commands/remix.ts:13-22 | an empty prompt is reported before the reference is looked at |
| Remix.PromptTsDropsCommand | src/commands/remix.ts:10 | `!remix ` followed by p gives p trimmed |
| Remix.TrimIgnoresLeadingSpace | src/commands/remix.ts:10 | removing the whitespace after the command word changes nothing once the result is trimmed |
| Remix.PromptTsKeepsUpperCaseCommand | src/commands/remix.ts:10 | the removal is case-sensitive: `!REMIX blue` is the prompt itself |
| Remix.AttachmentBeforeEmbed | src/commands/remix.ts:38-52 | once an image attachment exists the embeds are never consulted; the MIME type starts with `image/`; an image results iff its download succeeded with a success status |
| Remix.ImageTsSource | src/commands/remix.ts:77-114 | an extracted image is the bytes of an image attachment with its content type, or of an embed image with its header |
| Remix.ImageRsIsImage | src/commands/remix.rs:159-170 | the Rust version sends the model only `image/` types |
| Remix.EmbedMimeChecks | src/commands/remix.rs:166 | a page served as `text/html` from an embed is accepted by the TypeScript version and refused by the Rust one |
| Remix.ExecuteRsOutcomes | src/commands/remix.rs:30-138 | exactly one embed reply on every path; the model is asked iff there is a prompt, a referenced message and an image; success carries the image, the prompt and an accent colour; failures are error-coloured without files, each with its own message in check order: the empty-instructions text, the no-reference text, "Error getting image", "Error remixing image"; success is titled `Remix!` |
| Remix.VersionsAgreeOnAttachments | src/commands/remix.rs:142-156 | whenever the Rust version finds an attachment image whose download had a success status, the TypeScript version extracts the same one |
| Remix.NotOkAttachmentDiverges | src/commands/remix.rs:153-154 | an attachment answered with an error status is a thrown error to the TypeScript version but goes to the model as the image in the Rust one |
| Chance.RandomIndex | src/commands/eight-ball.ts:63-64 | the index is ⌊draw · n⌋, in [0, n) |
| Chance.RandomIndexReaches | src/commands/eight-ball.ts:63-64 | every index is produced by some draw |
| EightBall.ExecuteOutcomes | src/commands/eight-ball.ts:79-112 | one reply, titled `8 Ball Has Spoken` in an accent colour; a field iff the question is present with length 1..254, naming the question and answering from the list; the too-long text iff it is longer than 254 |
| EightBall.EveryResponseReachable | src/commands/eight-ball.ts:90-95 | every one of the forty answers can be given |
| Roll.ZeroMeansDefault | src/commands/roll.ts:27-31 | a zero or missing option rolls exactly as an explicit 6, and that roll is public |
| Roll.Face | src/commands/roll.ts:32 | the face is in [1, sides] |
| Roll.ExecuteOutcomes | src/commands/roll.ts:26-37 | one reply; ephemeral with the range text iff sides is outside [2, 100]; otherwise it shows a face in [1, sides] in an accent colour |
| Roll.EveryFaceReachable | src/commands/roll.ts:32 | every face of the die can come up |
| Roll.RollTextShowsFace | src/commands/roll.ts:36 | the rolled number is read back from the description |
| Imagine.ExecuteOutcomes | src/commands/imagine.ts:18-50 | trace is exactly defer then one accepted `editReply`; the image is attached iff the model produced one and the edit was accepted, and is shown under the prompt; otherwise the error-coloured embed without files |
| DeezNuts.ChimesInIffReplied | src/chime-ins/deez-nuts.ts:35-58 | the result is true iff one reply was sent, iff the draw passed the gate, the model answered without `No good joke` and the reply went out; the model is asked iff the gate passed |
| DeezNuts.ProbabilityBounds | src/chime-ins/deez-nuts.ts:37 | probability 1 always asks the model; a negative one never does anything |
| DeezNuts.PromptForRoundTrip | src/chime-ins/deez-nuts.ts:42-45 | the message content is recovered unchanged from the quoted prompt |

## Left out

- `/ping` (ping.ts, ping.rs): it measures wall-clock latency and sleeps.
- The activity manager, the logger, command registration and deploy-commands: these are timers, logging, REST calls and file-system imports.
- The Gemini clients: each call is an oracle outcome (`TextResult`, `ImageResult`).
- `src/main.rs`: framework configuration. The Rust prefix handling and case folding live inside poise.
- imagine.rs and eight_ball.rs: they hold only a base64 decode and a random choice.
- The colour provider: colours are opaque. `PrimaryColor` and `ErrorColor` stand for its roles and for serenity's red.
- The MarkdownSplitter used by prompt.rs is a foreign library. `Prompt.ExecuteRs` takes it as an arbitrary function from text to chunks.
- Member lookups in chat: concurrent and fallible. Their result is the finished name map `Place.Guild(displayNames)`.
- ISO-8601 rendering: the message's ISO string is an input. For chat.rs the same string is assumed to be what chrono's minute format prints.
- Lengths count characters (code points), not UTF-16 units. Lower case is ASCII only. Whitespace is the set JavaScript's `trim` strips.
- `Math.random` and `thread_rng` become draws: reals in [0, 1), or an index below the list length (`Remix.ExecuteRs`'s `colorIndex`). Floating-point rounding is not modelled.
- poise's rest-argument parsing for `!remix` is the `prompt: Option<string>` parameter.
- A trace lists the sends Discord accepted; a rejected send is absent from it. A TypeScript command that catches a rejected send gets a parameter for it and answers with its error text: prompt (`failedSend`), chat (`sendError`), tfti and remix (`replyOk`), imagine (`editOk`). Deez-nuts reports its reply's outcome (`replyOk`), and Rust chat fails on a rejected send (`sendOk`).
- Sends outside any `try`, and sends inside a `catch` block, have no failure path in the model: such a rejection leaves the command. This covers eight-ball and roll, the first two checks of remix, and every catch block.
- Tfti.ExecuteRs, Remix.ExecuteRs: a rejected send in the Rust commands ends the command with an error; the model assumes Discord accepts it.
- Remix.ExecuteRs: every Rust send is made with `reply(true)`, so it quotes the command message. A payload has no such flag, because every remix answer in either version is a reply to the command message (`message.reply` in TypeScript).
- Dispatch.HandleInteractionMain, Dispatch.HandleMessageMain: `execute` is not awaited, so an asynchronous failure is an unhandled promise rejection. Under Node's default that ends the process. The model records only that no error reply is sent (`Threw(_, false)`). Every command's `execute` is `async`, so none throws synchronously and main.ts never sends its error reply (`Dispatch.MainNeverAnswersFailure`, `Dispatch.MainNeverAnswersPrefixFailure`); the synchronous case is kept only to model its catch blocks as written. With the main.ts wiring, every `/imagine` and `!remix` reaches this: their error paths call the colour provider they were not given.
- Wiring in main.ts does not match what the commands declare:
  - remix and imagine get no colour provider;
  - remix's client has no `editImage`;
  - the client imagine gets has no `generateImage`;
  - roll gets an argument it ignores.

  Each command is modelled as declared, with its dependencies as oracle parameters.
- The splitter never breaks at word boundaries. It packs whole lines and cuts an over-long line every `maxLength` characters. The chat transcript keeps the fetched order reversed, without sorting by time, and keeps every message, including a trailing empty one. The model follows this behaviour.
- Chat.TranscriptTsLines, Chat.TranscriptRsLines: state one line per message only when no name, timestamp or content contains a newline. Message content is inserted raw, so a multi-line message spans several transcript lines.
- Prompt.ExecuteTs: the embed builder's rule that a description holds at least one character belongs to discord.js, not to this repository; the model takes it as given and throws at the first empty chunk.
- Prompt.ExecuteTsFollowUpFails: shows only that the trace breaks the lifecycle. What Discord then shows is not modelled: the catch's second `editReply` overwrites the first chunk. A failed follow-up itself sends nothing in the model.
