/** The event handlers that route platform events to commands: slash-command
    interactions looked up by name, and `!`-prefixed messages parsed into a
    command name and arguments.  Two generations are modelled: the current
    entry point (`main.ts`) and the older one (`index.ts`). */
module Dispatch {
  import opened Text
  import opened Replies

  /** The commands of the bot. */
  datatype CommandId = Ping | EightBall | PromptCommand | Chat | Tfti | Imagine | Roll | Remix

  /** The name each command declares for itself. */
  function DeclaredName(c: CommandId): string {
    match c
    case Ping => "ping"
    case EightBall => "8ball"
    case PromptCommand => "prompt"
    case Chat => "chat"
    case Tfti => "tfti"
    case Imagine => "imagine"
    case Roll => "roll"
    case Remix => "remix"
  }

  /** The command a name denotes, if any: the inverse of `DeclaredName`. */
  function NamedCommand(name: string): (r: Option<CommandId>)
    ensures r.Some? ==> DeclaredName(r.value) == name
  {
    if name == "ping" then Some(Ping)
    else if name == "8ball" then Some(EightBall)
    else if name == "prompt" then Some(PromptCommand)
    else if name == "chat" then Some(Chat)
    else if name == "tfti" then Some(Tfti)
    else if name == "imagine" then Some(Imagine)
    else if name == "roll" then Some(Roll)
    else if name == "remix" then Some(Remix)
    else None
  }

  /** Every command's name is its own: no two commands share a name. */
  lemma NamesDistinct(c: CommandId)
    ensures NamedCommand(DeclaredName(c)) == Some(c)
  {
    match c
    case Ping =>
    case EightBall =>
    case PromptCommand =>
    case Chat =>
    case Tfti =>
    case Imagine =>
    case Roll =>
    case Remix =>
  }

  /** `Map.get` on a registry built from `[name, command]` entries: a later
      entry with the same name overwrites an earlier one. */
  function Lookup(cmds: seq<CommandId>, name: string): (r: Option<CommandId>)
    ensures r.Some? ==> r.value in cmds && DeclaredName(r.value) == name
    ensures r.None? ==> forall c :: c in cmds ==> DeclaredName(c) != name
    decreases |cmds|
  {
    if cmds == [] then None
    else
      var last := cmds[|cmds| - 1];
      if DeclaredName(last) == name then Some(last)
      else
        var r := Lookup(cmds[..|cmds| - 1], name);
        assert forall c :: c in cmds ==> c in cmds[..|cmds| - 1] || c == last;
        r
  }

  /** A registry finds a name exactly when the name belongs to one of its
      commands, and then finds that command. */
  lemma LookupByName(cmds: seq<CommandId>, name: string)
    ensures Lookup(cmds, name) == match NamedCommand(name)
      case Some(c) => if c in cmds then Some(c) else None
      case None => None
  {
    var r := Lookup(cmds, name);
    if r.Some? {
      NamesDistinct(r.value);
    } else if NamedCommand(name).Some? {
      var c := NamedCommand(name).value;
      assert DeclaredName(c) == name;
    }
  }

  const ErrorText: string := "There was an error while executing this command!"

  /** The slash commands registered by the current entry point. */
  const MainSlashCommands: seq<CommandId> := [Ping, EightBall, PromptCommand, Chat, Tfti, Imagine, Roll]

  /** The prefix commands registered by the current entry point. */
  const MainPrefixCommands: seq<CommandId> := [Remix]

  /** The slash commands registered by the older entry point. */
  const IndexSlashCommands: seq<CommandId> := [Ping, EightBall, PromptCommand, Chat, Tfti, Imagine]

  // ---- slash commands ----

  datatype Interaction = Interaction(isChatInputCommand: bool, commandName: string)

  /** What a command's `execute` did: the reply actions it issued and
      whether it failed, synchronously (the call itself throws, before any
      promise is returned) or asynchronously (the returned promise rejects).
      Every command's `execute` is an `async` function, whose every throw,
      even one before its first `await`, rejects the promise instead; a
      synchronous failure is kept only to model the handlers' catch blocks
      as written. */
  datatype Outcome = Finished(trace: seq<Action>) | Threw(trace: seq<Action>, synchronous: bool)

  /** The extra dependency the older entry point passes to `execute`. */
  datatype ClientArg = NoClient | TextClient | ImagenClient

  datatype Dispatch = Ignored | Dispatched(command: CommandId, client: ClientArg, trace: seq<Action>)

  /** The best-effort error answer: a follow-up once the interaction was
      replied to or deferred, the initial reply otherwise; only the user sees
      it.  It is allowed in every state and always leaves the interaction
      answered, and it is the send the Rust framework would choose. */
  function ErrorReply(s: ReplyState): (a: Action)
    ensures Step(s, a) == Some(Replied)
    ensures a == PoiseSend(s, Whisper(ErrorText))
    ensures a.Reply? <==> s == Unacknowledged
    ensures a.p == Whisper(ErrorText)
  {
    if s == Unacknowledged then Reply(Whisper(ErrorText)) else FollowUp(Whisper(ErrorText))
  }

  /** Whatever a command did, as long as it kept to the lifecycle, the error
      answer is allowed and leaves the interaction answered. */
  lemma ErrorReplyResolves(trace: seq<Action>)
    requires Valid(trace)
    ensures Resolved(trace + [ErrorReply(StateAfter(trace))])
  {
    RunAppend(Unacknowledged, trace, [ErrorReply(StateAfter(trace))]);
  }

  /** The current `InteractionCreate` handler.  `execute` is called without
      `await`, so only a synchronous throw reaches the catch block, and no
      `async` command throws synchronously. */
  function HandleInteractionMain(i: Interaction, execute: CommandId -> Outcome): Dispatch {
    var found := Lookup(MainSlashCommands, i.commandName);
    if !i.isChatInputCommand || found.None? then Ignored
    else
      var c := found.value;
      match execute(c)
      case Finished(t) => Dispatched(c, NoClient, t)
      case Threw(t, synchronous) =>
        Dispatched(c, NoClient, if synchronous then t + [ErrorReply(StateAfter(t))] else t)
  }

  /** A chat-input interaction is dispatched exactly when its name is the
      name of a command other than `remix`, and then to that command. */
  lemma MainDispatchesRegistered(i: Interaction, execute: CommandId -> Outcome)
    ensures var d := HandleInteractionMain(i, execute);
      var named := NamedCommand(i.commandName);
      && (d.Dispatched? <==> i.isChatInputCommand && named.Some? && named.value != Remix)
      && (d.Dispatched? ==> d.command == named.value && d.client == NoClient)
  {
    LookupByName(MainSlashCommands, i.commandName);
  }

  /** Only a synchronous throw is answered with the error message; the
      answer keeps a well-formed trace well-formed and resolved. */
  lemma MainErrorPath(i: Interaction, execute: CommandId -> Outcome)
    requires HandleInteractionMain(i, execute).Dispatched?
    ensures var d := HandleInteractionMain(i, execute);
      match execute(d.command)
      case Finished(t) => d.trace == t
      case Threw(t, synchronous) =>
        && (synchronous ==> d.trace == t + [ErrorReply(StateAfter(t))])
        && (synchronous && Valid(t) ==> Resolved(d.trace))
        && (!synchronous ==> d.trace == t)
  {
    var d := HandleInteractionMain(i, execute);
    match execute(d.command)
    case Finished(t) =>
    case Threw(t, synchronous) =>
      if synchronous && Valid(t) {
        ErrorReplyResolves(t);
      }
  }

  /** Commands written as `async` functions never fail synchronously. */
  predicate AsyncCommands(execute: CommandId -> Outcome) {
    forall c :: execute(c).Threw? ==> !execute(c).synchronous
  }

  /** With `async` commands the current handler never answers a failure: a
      dispatched command's trace is exactly what the command itself did. */
  lemma MainNeverAnswersFailure(i: Interaction, execute: CommandId -> Outcome)
    requires AsyncCommands(execute)
    ensures var d := HandleInteractionMain(i, execute);
      d.Dispatched? ==> d.trace == execute(d.command).trace
  {
  }

  /** The older handler: `execute` is awaited, so every failure is caught,
      and the text and image clients are routed to the commands that use them. */
  function HandleInteractionIndex(i: Interaction, execute: CommandId -> Outcome): Dispatch {
    var found := Lookup(IndexSlashCommands, i.commandName);
    if !i.isChatInputCommand || found.None? then Ignored
    else
      var c := found.value;
      var client := if c == PromptCommand || c == Chat then TextClient else if c == Imagine then ImagenClient else NoClient;
      match execute(c)
      case Finished(t) => Dispatched(c, client, t)
      case Threw(t, _) => Dispatched(c, client, t + [ErrorReply(StateAfter(t))])
  }

  lemma IndexDispatch(i: Interaction, execute: CommandId -> Outcome)
    ensures var d := HandleInteractionIndex(i, execute);
      && var named := NamedCommand(i.commandName);
      && (d.Dispatched? <==> i.isChatInputCommand && named.Some? && named.value !in {Remix, Roll})
      && (d.Dispatched? ==> d.command == named.value)
      && (d.Dispatched? ==> (d.client == TextClient <==> d.command in {PromptCommand, Chat}))
      && (d.Dispatched? ==> (d.client == ImagenClient <==> d.command == Imagine))
      && (d.Dispatched? && execute(d.command).Threw? ==>
            var t := execute(d.command).trace;
            d.trace == t + [ErrorReply(StateAfter(t))] && (Valid(t) ==> Resolved(d.trace)))
      && (d.Dispatched? && execute(d.command).Finished? ==> d.trace == execute(d.command).trace)
  {
    LookupByName(IndexSlashCommands, i.commandName);
    var d := HandleInteractionIndex(i, execute);
    if d.Dispatched? && execute(d.command).Threw? && Valid(execute(d.command).trace) {
      ErrorReplyResolves(execute(d.command).trace);
    }
  }

  // ---- prefix commands ----

  /** The non-empty strings of `parts`, in order. */
  function NonEmpty(parts: seq<string>): (r: seq<string>)
    ensures forall i :: 0 <= i < |r| ==> r[i] != [] && r[i] in parts
  {
    if parts == [] then []
    else (if parts[0] == [] then [] else [parts[0]]) + NonEmpty(parts[1..])
  }

  lemma {:induction false} NonEmptyKeeps(parts: seq<string>)
    requires forall i :: 0 <= i < |parts| ==> parts[i] != []
    ensures NonEmpty(parts) == parts
    decreases |parts|
  {
    if parts != [] {
      NonEmptyKeeps(parts[1..]);
    }
  }

  /** JavaScript `split(/ +/)`: cut at every maximal run of spaces; a run at
      either end leaves one empty string there. */
  function SplitSpaceRuns(s: string): (r: seq<string>)
    ensures |r| > 0
    ensures forall i :: 0 <= i < |r| ==> ' ' !in r[i]
  {
    var parts := SplitOn(s, ' ');
    if |parts| == 1 then parts
    else
      var middle := NonEmpty(parts[1..|parts| - 1]);
      assert forall i :: 0 <= i < |middle| ==> middle[i] in parts;
      [parts[0]] + middle + [parts[|parts| - 1]]
  }

  lemma {:induction false} JoinLast(parts: seq<string>, sep: char)
    requires |parts| > 1
    ensures Join(parts, sep) == Join(parts[..|parts| - 1], sep) + [sep] + parts[|parts| - 1]
    decreases |parts|
  {
    if |parts| > 2 {
      JoinLast(parts[1..], sep);
      assert parts[1..][..|parts| - 2] == parts[..|parts| - 1][1..];
    }
  }

  /** Without whitespace at either end, the split yields no empty token. */
  lemma SplitSpaceRunsOfTrimmed(s: string)
    requires s != [] && !IsSpace(s[0]) && !IsSpace(s[|s| - 1])
    ensures forall i :: 0 <= i < |SplitSpaceRuns(s)| ==> SplitSpaceRuns(s)[i] != []
  {
    var parts := SplitOn(s, ' ');
    if |parts| > 1 {
      assert parts[0] != [];
      JoinLast(parts, ' ');
      assert parts[|parts| - 1] != [];
    }
  }

  /** The command name and arguments of a `!` message: the text after the
      prefix, trimmed, split on runs of spaces; the first token lower-cased
      is the name, the rest are the arguments. */
  function ParsePrefix(content: string): Option<(string, seq<string>)> {
    if !StartsWith(content, "!") then None
    else
      var tokens := SplitSpaceRuns(Trim(content[1..]));
      Some((Lower(tokens[0]), tokens[1..]))
  }

  /** The name is empty exactly when nothing but whitespace follows the `!`;
      otherwise no token is empty and no token holds a space. */
  lemma ParsePrefixTokens(content: string)
    requires StartsWith(content, "!")
    ensures var (name, args) := ParsePrefix(content).value;
      && (name == [] <==> Trim(content[1..]) == [])
      && ' ' !in name
      && (forall i :: 0 <= i < |args| ==> ' ' !in args[i])
      && (name != [] ==> forall i :: 0 <= i < |args| ==> args[i] != [])
  {
    var t := Trim(content[1..]);
    var tokens := SplitSpaceRuns(t);
    if t != [] {
      SplitSpaceRunsOfTrimmed(t);
      assert tokens[0] != [];
    } else {
      assert SplitOn(t, ' ') == [""];
    }
    assert forall i :: 0 <= i < |tokens[1..]| ==> tokens[1..][i] == tokens[i + 1];
  }

  predicate IsLowerWord(s: string) {
    s != [] && forall i :: 0 <= i < |s| ==> !IsSpace(s[i]) && !('A' <= s[i] <= 'Z')
  }

  predicate IsWord(s: string) {
    s != [] && forall i :: 0 <= i < |s| ==> !IsSpace(s[i])
  }

  /** Round trip: a message written as `!` followed by a lower-case name and
      arguments separated by single spaces parses back to that name and
      those arguments. */
  lemma ParsePrefixRoundTrip(name: string, args: seq<string>)
    requires IsLowerWord(name)
    requires forall i :: 0 <= i < |args| ==> IsWord(args[i])
    ensures ParsePrefix("!" + Join([name] + args, ' ')) == Some((name, args))
  {
    var tokens := [name] + args;
    var joined := Join(tokens, ' ');
    var content := "!" + joined;
    WordsOfCommand(name, args);
    JoinedWordsTrimmed(tokens);
    SplitSpaceRunsOfWords(tokens);
    LowerOfLowerWord(name);
    assert content[1..] == joined;
    assert SplitSpaceRuns(Trim(content[1..])) == tokens;
    assert tokens[1..] == args;
  }

  /** The name and arguments of a command are all whitespace-free words. */
  lemma WordsOfCommand(name: string, args: seq<string>)
    requires IsLowerWord(name)
    requires forall i :: 0 <= i < |args| ==> IsWord(args[i])
    ensures var tokens := [name] + args;
      forall i :: 0 <= i < |tokens| ==> IsWord(tokens[i]) && tokens[i] != [] && ' ' !in tokens[i]
  {
    var tokens := [name] + args;
    forall i | 0 <= i < |tokens|
      ensures IsWord(tokens[i]) && tokens[i] != [] && ' ' !in tokens[i]
    {
      if i > 0 {
        assert tokens[i] == args[i - 1];
      }
      assert IsWord(tokens[i]);
      assert forall k :: 0 <= k < |tokens[i]| ==> tokens[i][k] != ' ';
    }
  }

  /** Lower-casing a word without capitals changes nothing. */
  lemma LowerOfLowerWord(name: string)
    requires IsLowerWord(name)
    ensures Lower(name) == name
  {
    assert forall k :: 0 <= k < |name| ==> Lower(name)[k] == name[k];
  }

  /** Splitting space-free, non-empty tokens joined by single spaces gives
      the tokens back. */
  lemma SplitSpaceRunsOfWords(tokens: seq<string>)
    requires |tokens| > 0
    requires forall i :: 0 <= i < |tokens| ==> tokens[i] != [] && ' ' !in tokens[i]
    ensures SplitSpaceRuns(Join(tokens, ' ')) == tokens
  {
    var parts := SplitOn(Join(tokens, ' '), ' ');
    SplitOnJoin(tokens, ' ');
    assert parts == tokens;
    if |tokens| > 1 {
      var middle := tokens[1..|tokens| - 1];
      MiddleNonEmpty(tokens, middle);
      NonEmptyKeeps(middle);
      assert NonEmpty(parts[1..|parts| - 1]) == middle;
      EndsAndMiddle(tokens);
    }
  }

  lemma MiddleNonEmpty(tokens: seq<string>, middle: seq<string>)
    requires |tokens| > 1 && middle == tokens[1..|tokens| - 1]
    requires forall i :: 0 <= i < |tokens| ==> tokens[i] != []
    ensures forall i :: 0 <= i < |middle| ==> middle[i] != []
  {
    forall i | 0 <= i < |middle|
      ensures middle[i] != []
    {
      assert middle[i] == tokens[i + 1];
    }
  }

  lemma EndsAndMiddle<T>(s: seq<T>)
    requires |s| > 1
    ensures s == [s[0]] + s[1..|s| - 1] + [s[|s| - 1]]
  {
  }

  /** Joining whitespace-free words gives a string that starts with the
      first word's first character and ends with the last word's last. */
  lemma {:induction false} JoinedWordsEnds(words: seq<string>)
    requires |words| > 0
    requires forall i :: 0 <= i < |words| ==> IsWord(words[i])
    ensures var j := Join(words, ' '); j != [] && !IsSpace(j[0]) && !IsSpace(j[|j| - 1])
    decreases |words|
  {
    assert IsWord(words[0]);
    if |words| > 1 {
      var rest := Join(words[1..], ' ');
      assert forall i :: 0 <= i < |words[1..]| ==> IsWord(words[1..][i]) by {
        forall i | 0 <= i < |words[1..]| ensures IsWord(words[1..][i]) {
          assert words[1..][i] == words[i + 1];
        }
      }
      JoinedWordsEnds(words[1..]);
      var j := words[0] + [' '] + rest;
      assert Join(words, ' ') == j;
      assert j[0] == words[0][0];
      assert j[|j| - 1] == rest[|rest| - 1];
    }
  }

  /** Joining whitespace-free words leaves nothing for `trim` to remove. */
  lemma JoinedWordsTrimmed(words: seq<string>)
    requires |words| > 0
    requires forall i :: 0 <= i < |words| ==> IsWord(words[i])
    ensures Trim(Join(words, ' ')) == Join(words, ' ')
  {
    JoinedWordsEnds(words);
    TrimKeepsTrimmed(Join(words, ' '));
  }

  /** What a prefix command's `execute` did: the message replies it sent and
      whether it failed, synchronously or asynchronously, in the sense of
      `Outcome`. */
  datatype PrefixOutcome = PrefixFinished(replies: seq<Payload>) | PrefixThrew(replies: seq<Payload>, synchronous: bool)

  datatype MessageDispatch = MessageIgnored | MessageDispatched(command: CommandId, args: seq<string>, replies: seq<Payload>)

  /** The current `MessageCreate` handler.  Bots are ignored, and so are
      messages without the prefix, with an empty name or with a name that is
      not registered; `execute` is not awaited. */
  function HandleMessageMain(authorIsBot: bool, content: string, execute: (CommandId, seq<string>) -> PrefixOutcome): MessageDispatch {
    if authorIsBot then MessageIgnored
    else match ParsePrefix(content)
      case None => MessageIgnored
      case Some((name, args)) =>
        var found := Lookup(MainPrefixCommands, name);
        if name == [] || found.None? then MessageIgnored
        else
          var c := found.value;
          match execute(c, args)
          case PrefixFinished(rs) => MessageDispatched(c, args, rs)
          case PrefixThrew(rs, synchronous) =>
            MessageDispatched(c, args, if synchronous then rs + [Say(ErrorText)] else rs)
  }

  lemma MainMessageDispatch(authorIsBot: bool, content: string, execute: (CommandId, seq<string>) -> PrefixOutcome)
    ensures var d := HandleMessageMain(authorIsBot, content, execute);
      && (d.MessageDispatched? <==> !authorIsBot && ParsePrefix(content).Some? && ParsePrefix(content).value.0 == "remix")
      && (d.MessageDispatched? ==> d.command == Remix && d.args == ParsePrefix(content).value.1)
  {
    var d := HandleMessageMain(authorIsBot, content, execute);
    var p := ParsePrefix(content);
    if authorIsBot || p.None? {
      assert d == MessageIgnored;
    } else {
      var name := p.value.0;
      var args := p.value.1;
      PrefixRegistry(name);
      if name == "remix" {
        assert d.MessageDispatched? && d.command == Remix && d.args == args;
      } else {
        assert d == MessageIgnored;
      }
    }
  }

  /** With an `async` remix command the current handler never answers its
      failure: the replies are exactly the command's own. */
  lemma MainNeverAnswersPrefixFailure(authorIsBot: bool, content: string, execute: (CommandId, seq<string>) -> PrefixOutcome)
    requires forall c, args :: execute(c, args).PrefixThrew? ==> !execute(c, args).synchronous
    ensures var d := HandleMessageMain(authorIsBot, content, execute);
      d.MessageDispatched? ==> d.replies == execute(d.command, d.args).replies
  {
  }

  lemma PrefixRegistry(name: string)
    ensures Lookup(MainPrefixCommands, name) == if name == "remix" then Some(Remix) else None
  {
    assert MainPrefixCommands[..0] == [];
  }

  /** The older handler: only the token `remix` is routed, and its failures
      are awaited and answered with a reply to the message. */
  function HandleMessageIndex(authorIsBot: bool, content: string, execute: (CommandId, seq<string>) -> PrefixOutcome): MessageDispatch {
    if authorIsBot then MessageIgnored
    else match ParsePrefix(content)
      case None => MessageIgnored
      case Some((name, args)) =>
        if name != "remix" then MessageIgnored
        else match execute(Remix, args)
          case PrefixFinished(rs) => MessageDispatched(Remix, args, rs)
          case PrefixThrew(rs, _) => MessageDispatched(Remix, args, rs + [Say(ErrorText)])
  }

  /** Both generations route exactly the same messages; they differ only in
      answering an asynchronous failure. */
  lemma MessageHandlersAgree(authorIsBot: bool, content: string, execute: (CommandId, seq<string>) -> PrefixOutcome)
    ensures HandleMessageMain(authorIsBot, content, execute).MessageDispatched?
        <==> HandleMessageIndex(authorIsBot, content, execute).MessageDispatched?
    ensures var m := HandleMessageMain(authorIsBot, content, execute);
      var x := HandleMessageIndex(authorIsBot, content, execute);
      m.MessageDispatched? && execute(Remix, m.args).PrefixThrew? && !execute(Remix, m.args).synchronous ==>
        x.replies == m.replies + [Say(ErrorText)]
  {
    MainMessageDispatch(authorIsBot, content, execute);
  }
}
