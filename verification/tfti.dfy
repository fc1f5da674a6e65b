/** The `/tfti` command ("thanks for the invite"): count how many of the
    newest messages in the channel are the bot's own tfti embeds in an
    unbroken run, and answer with the next step of an escalating embed whose
    title shows the multiplier.  Both the TypeScript and the Rust version
    are modelled. */
module Tfti {
  import opened Text
  import opened Replies

  /** A channel message as far as the streak is concerned: its author and
      the titles of its embeds (an embed may have none). */
  datatype Msg = Msg(authorId: nat, embedTitles: seq<Option<string>>)

  /** The channel history, newest first, or a failed read. */
  datatype History = History(newestFirst: seq<Msg>) | ReadFailed

  /** The ten colours, one per step of the escalation. */
  const Palette: seq<Color> := [
    Rgb(243, 139, 168), Rgb(250, 179, 135), Rgb(166, 227, 161), Rgb(137, 220, 235), Rgb(180, 190, 254),
    Rgb(203, 166, 247), Rgb(245, 194, 231), Rgb(148, 226, 213), Rgb(245, 224, 220), Rgb(116, 199, 236)]

  /** The number of leading messages of `ms` that satisfy `p`. */
  function Streak(ms: seq<Msg>, p: Msg -> bool): (k: nat)
    ensures k <= |ms|
    ensures forall i :: 0 <= i < k ==> p(ms[i])
    ensures k < |ms| ==> !p(ms[k])
  {
    if ms == [] || !p(ms[0]) then 0 else 1 + Streak(ms[1..], p)
  }

  /** Reading only the newest `limit` messages caps the streak at `limit`. */
  lemma {:induction false} StreakOfPrefix(ms: seq<Msg>, p: Msg -> bool, limit: nat)
    ensures Streak(Prefix(ms, limit), p) == if Streak(ms, p) < limit then Streak(ms, p) else limit
    decreases limit
  {
    if limit > 0 && ms != [] {
      assert Prefix(ms, limit)[0] == ms[0];
      if p(ms[0]) {
        assert Prefix(ms, limit)[1..] == Prefix(ms[1..], limit - 1);
        StreakOfPrefix(ms[1..], p, limit - 1);
      }
    }
  }

  /** A new message that satisfies `p` on top of the history lengthens the
      streak by one. */
  lemma StreakGrows(m: Msg, ms: seq<Msg>, p: Msg -> bool)
    requires p(m)
    ensures Streak([m] + ms, p) == Streak(ms, p) + 1
  {
    assert ([m] + ms)[1..] == ms;
  }

  // ---- TypeScript variant ----

  const FetchLimitTs: nat := 9

  const TitleStem: string := "\U{1F624} Tfti"

  const Infinity: string := "\U{267E}\U{FE0F}"

  const VideoUrl: string := "https://youtube.com/shorts/pFmq2xu8Hvw?si=ysapcGMaM6YqEcOI"

  const ErrorTextTs: string := "Sorry, there was an error processing the tfti command."

  /** The line every description of either version starts with. */
  const Thanks: string := "Thanks for the invite, asshole"

  /** What follows the thanks line in each step's description: the
      description of step `i` is `Thanks + TailsTs[i]`. */
  const TailsTs: seq<string> := [
    "",
    "\nOh wait, that was just said",
    "\nFeels like I'm on repeat here",
    "\nGuess we'll just keep saying it",
    "\nI could stop, but why bother?",
    "\nJust keep pretending I don't exist, as usual",
    "\nStill feels worth repeating",
    "\nI guess this is just what I do now",
    "\nForever and always, from the bottom of my heart",
    "\nTo infinity and beyond"]

  /** A message of the streak: written by the bot (whose id may be unknown)
      and carrying an embed whose title contains the tfti stem. */
  predicate IsTftiTs(botId: Option<nat>, m: Msg) {
    && botId.Some? && m.authorId == botId.value
    && exists j :: 0 <= j < |m.embedTitles| && m.embedTitles[j].Some? && Contains(m.embedTitles[j].value, TitleStem)
  }

  /** The multiplier: the streak among the newest nine messages; no channel
      counts as no streak. */
  function MultiplierTs(botId: Option<nat>, channel: Option<seq<Msg>>): (k: nat)
    ensures k <= FetchLimitTs
  {
    match channel
    case None => 0
    case Some(newestFirst) =>
      var recent := Prefix(newestFirst, FetchLimitTs);
      Streak(recent, m => IsTftiTs(botId, m))
  }

  function TitleTs(k: nat): string {
    if k == 0 then TitleStem
    else if k <= 8 then TitleStem + " x" + Decimal(k + 1)
    else TitleStem + " " + Infinity
  }

  /** The embed for multiplier `k`: step `k` of the escalation, the ninth
      step for every larger multiplier. */
  function EmbedTs(k: nat): (e: Embed)
    ensures e.description == Some(Thanks + TailsTs[if k < 9 then k else 9])
    ensures e.color == Some(Palette[if k < 9 then k else 9])
    ensures e.url == Some(VideoUrl)
  {
    var step := if k < 9 then k else 9;
    EmptyEmbed.(title := Some(TitleTs(k)), description := Some(Thanks + TailsTs[step]),
                color := Some(Palette[step]), url := Some(VideoUrl))
  }

  /** Every step thanks for the invite first, under a title that the next
      invocation recognises as part of the streak. */
  lemma EmbedTsThanks(k: nat)
    ensures StartsWith(EmbedTs(k).description.value, Thanks)
    ensures EmbedTs(k).title.Some? && Contains(EmbedTs(k).title.value, TitleStem)
  {
    AppendStartsWith(Thanks, TailsTs[if k < 9 then k else 9]);
    TitleTsMatches(k);
  }

  /** One invocation: the channel is `None` without a channel, and
      `replyOk` says whether Discord accepted the reply with the embed.  A
      read that fails, or a rejected reply, is caught and answered with the
      error text. */
  function ExecuteTs(botId: Option<nat>, channel: Option<History>, replyOk: bool): (trace: seq<Action>)
    ensures |trace| == 1 && trace[0].Reply?
    ensures trace[0].p == Say(ErrorTextTs) <==> channel == Some(ReadFailed) || !replyOk
  {
    match channel
    case Some(ReadFailed) => [Reply(Say(ErrorTextTs))]
    case Some(History(ms)) =>
      if replyOk then [Reply(Card(EmbedTs(MultiplierTs(botId, Some(ms)))))] else [Reply(Say(ErrorTextTs))]
    case None =>
      if replyOk then [Reply(Card(EmbedTs(MultiplierTs(botId, None))))] else [Reply(Say(ErrorTextTs))]
  }

  /** Exactly one accepted reply, so the interaction is answered; when it is
      not the error text it is the embed for the streak of the channel read. */
  lemma ExecuteTsResolves(botId: Option<nat>, channel: Option<History>, replyOk: bool)
    ensures Resolved(ExecuteTs(botId, channel, replyOk))
    ensures channel.None? && replyOk ==>
      ExecuteTs(botId, channel, replyOk) == [Reply(Card(EmbedTs(MultiplierTs(botId, None))))]
    ensures channel.Some? && channel.value.History? && replyOk ==>
      ExecuteTs(botId, channel, replyOk) == [Reply(Card(EmbedTs(MultiplierTs(botId, Some(channel.value.newestFirst)))))]
  {
    var t := ExecuteTs(botId, channel, replyOk);
    RunShort(t[0], t[0]);
  }

  /** Every title the command produces contains the stem, so its own message
      counts toward the next streak. */
  lemma TitleTsMatches(k: nat)
    ensures Contains(TitleTs(k), TitleStem)
  {
    if k == 0 {
      StartsWithContains(TitleStem, TitleStem);
    } else if k <= 8 {
      AppendStartsWith(TitleStem, " x" + Decimal(k + 1));
      assert TitleTs(k) == TitleStem + (" x" + Decimal(k + 1));
      StartsWithContains(TitleTs(k), TitleStem);
    } else {
      AppendStartsWith(TitleStem, " " + Infinity);
      assert TitleTs(k) == TitleStem + (" " + Infinity);
      StartsWithContains(TitleTs(k), TitleStem);
    }
  }

  /** The message the bot posts for a multiplier. */
  function PostedTs(botId: nat, k: nat): Msg {
    Msg(botId, [Some(TitleTs(k))])
  }

  /** The next invocation, after the bot's own answer, counts one more, up
      to the nine messages it reads. */
  lemma StreakExtendsTs(botId: nat, ms: seq<Msg>)
    ensures var k := MultiplierTs(Some(botId), Some(ms));
      MultiplierTs(Some(botId), Some([PostedTs(botId, k)] + ms)) == if k + 1 < FetchLimitTs then k + 1 else FetchLimitTs
  {
    var p := m => IsTftiTs(Some(botId), m);
    var k := MultiplierTs(Some(botId), Some(ms));
    var posted := PostedTs(botId, k);
    TitleTsMatches(k);
    assert posted.embedTitles[0] == Some(TitleTs(k));
    assert p(posted);
    StreakOfPrefix(ms, p, FetchLimitTs);
    StreakGrows(posted, ms, p);
    StreakOfPrefix([posted] + ms, p, FetchLimitTs);
  }

  /** Without knowing its own id the bot never sees a streak. */
  lemma UnknownBotNeverCounts(channel: Option<seq<Msg>>)
    ensures MultiplierTs(None, channel) == 0
  {
  }

  /** Different steps have different titles: the title tells the multiplier,
      up to the last step. */
  lemma TitlesTsDistinct(a: nat, b: nat)
    requires a <= 9 && b <= 9 && a != b
    ensures TitleTs(a) != TitleTs(b)
  {
    var s := TitleStem;
    if 1 <= a <= 8 && 1 <= b <= 8 {
      if TitleTs(a) == TitleTs(b) {
        assert (s + " x" + Decimal(a + 1))[|s| + 2..] == Decimal(a + 1);
        assert (s + " x" + Decimal(b + 1))[|s| + 2..] == Decimal(b + 1);
        DecimalInjective(a + 1, b + 1);
      }
    } else if a == 0 || b == 0 {
      assert |TitleTs(a)| != |TitleTs(b)|;
    } else {
      var k := if a == 9 then b else a;
      assert TitleTs(k)[|s| + 1] == 'x';
      assert TitleTs(9)[|s| + 1] == '\U{267E}';
    }
  }

  // ---- Rust variant ----

  const FetchLimitRs: nat := 18

  /** What follows the thanks line and a full stop in each step's
      description. */
  const TailsRs: seq<string> := [
    "",
    " Oh wait, that was just said.",
    " Feels like I'm on repeat here.",
    " Guess we'll just keep saying it.",
    " I could stop, but why bother?",
    " Just keep pretending I don't exist.",
    " Still feels worth repeating.",
    " I guess this is just what I do now.",
    " Forever and always, from the bottom of my heart.",
    " Forever stuck in this loop, I guess."]

  /** A message of the streak: written by the bot and carrying an embed
      whose title starts with `Tfti`; an embed without title never counts. */
  predicate IsTftiRs(botId: nat, m: Msg) {
    && m.authorId == botId
    && exists j :: 0 <= j < |m.embedTitles| && m.embedTitles[j].Some? && StartsWith(m.embedTitles[j].value, "Tfti")
  }

  function MultiplierRs(botId: nat, newestFirst: seq<Msg>): (k: nat)
    ensures k <= FetchLimitRs
  {
    Streak(Prefix(newestFirst, FetchLimitRs), m => IsTftiRs(botId, m))
  }

  function TitleRs(k: nat): string {
    if k == 0 then "Tfti"
    else if k <= 8 then "Tfti x" + Decimal(k + 1)
    else "Tfti " + Infinity
  }

  function EmbedRs(k: nat): (e: Embed)
    ensures e.description == Some(Thanks + "." + TailsRs[if k < 9 then k else 9])
    ensures e.color == Some(Palette[if k < 9 then k else 9])
    ensures e.url == None
  {
    var step := if k < 9 then k else 9;
    Titled(TitleRs(k), Thanks + "." + TailsRs[step], Palette[step])
  }

  /** The Rust steps thank with a full stop, under a title the next Rust
      invocation recognises. */
  lemma EmbedRsThanks(k: nat)
    ensures StartsWith(EmbedRs(k).description.value, Thanks + ".")
    ensures EmbedRs(k).title.Some? && StartsWith(EmbedRs(k).title.value, "Tfti")
  {
    AppendStartsWith(Thanks + ".", TailsRs[if k < 9 then k else 9]);
    TitleRsMatches(k);
  }

  /** One invocation: a failed read ends the command with an error and
      nothing sent; otherwise one send, the initial response. */
  function ExecuteRs(botId: nat, history: History): (r: (seq<Action>, bool))
    ensures r.1 <==> history.History?
    ensures r.1 ==> |r.0| == 1 && r.0[0].Reply?
    ensures !r.1 ==> r.0 == []
  {
    match history
    case ReadFailed => ([], false)
    case History(ms) => ([PoiseSend(Unacknowledged, Card(EmbedRs(MultiplierRs(botId, ms))))], true)
  }

  lemma TitleRsMatches(k: nat)
    ensures StartsWith(TitleRs(k), "Tfti")
  {
    if k == 0 {
      assert TitleRs(k)[..4] == "Tfti";
    } else if k <= 8 {
      AppendStartsWith("Tfti", " x" + Decimal(k + 1));
      assert TitleRs(k) == "Tfti" + (" x" + Decimal(k + 1));
    } else {
      AppendStartsWith("Tfti", " " + Infinity);
      assert TitleRs(k) == "Tfti" + (" " + Infinity);
    }
  }

  function PostedRs(botId: nat, k: nat): Msg {
    Msg(botId, [Some(TitleRs(k))])
  }

  /** The next invocation, after the bot's own answer, counts one more, up
      to the eighteen messages it reads; from nine on the title stays at
      infinity while the count keeps growing. */
  lemma StreakExtendsRs(botId: nat, ms: seq<Msg>)
    ensures var k := MultiplierRs(botId, ms);
      MultiplierRs(botId, [PostedRs(botId, k)] + ms) == if k + 1 < FetchLimitRs then k + 1 else FetchLimitRs
  {
    var p := m => IsTftiRs(botId, m);
    var k := MultiplierRs(botId, ms);
    var posted := PostedRs(botId, k);
    TitleRsMatches(k);
    assert posted.embedTitles[0] == Some(TitleRs(k));
    assert p(posted);
    StreakOfPrefix(ms, p, FetchLimitRs);
    StreakGrows(posted, ms, p);
    StreakOfPrefix([posted] + ms, p, FetchLimitRs);
  }

  /** The two versions do not recognise each other's messages: a TypeScript
      title starts with the emoji, a Rust title lacks it. */
  lemma VersionsIgnoreEachOther(k: nat)
    ensures !StartsWith(TitleTs(k), "Tfti")
    ensures !Contains(TitleRs(k), TitleStem)
  {
    assert TitleTs(k)[0] == '\U{1F624}';
    if Contains(TitleRs(k), TitleStem) {
      var i: nat :| i <= |TitleRs(k)| && OccursAt(TitleRs(k), TitleStem, i);
      assert TitleRs(k)[i] == '\U{1F624}';
      RsTitleHasNoEmoji(k, i);
    }
  }

  lemma RsTitleHasNoEmoji(k: nat, i: nat)
    requires i < |TitleRs(k)|
    ensures TitleRs(k)[i] != '\U{1F624}'
  {
    if 1 <= k <= 8 {
      var d := Decimal(k + 1);
      assert TitleRs(k) == "Tfti x" + d;
      if i >= 6 {
        assert TitleRs(k)[i] == d[i - 6];
      }
    }
  }
}
