/** What a command sends back: embeds, message payloads, the reply actions on
    an interaction, and the reply lifecycle those actions must follow.

    The lifecycle of an interaction's reply handle is
      Unacknowledged --Defer-->     Deferred
      Unacknowledged --Reply-->     Replied
      Deferred       --EditReply--> Replied
      Deferred       --FollowUp-->  Replied   (the first follow-up resolves the placeholder)
      Replied        --FollowUp-->  Replied
    and nothing else: one `reply`/`editReply` per invocation, never a
    `reply` once the handle was deferred.

    A trace lists the actions Discord accepted, in order.  A send that
    fails changes neither flag of the handle and is left out of the trace;
    a command that catches the failure then sends again from the same
    state. */
module Replies {
  import opened Text

  /** Colours are opaque: an RGB triple written in the source, or one of the
      roles a colour provider hands out. */
  datatype Color = Rgb(r: nat, g: nat, b: nat) | PrimaryColor | ErrorColor

  /** The twelve accent colours the eight-ball, dice and remix commands
      pick from. */
  const AccentColors: seq<Color> := [
    Rgb(245, 194, 231), Rgb(203, 166, 247), Rgb(243, 139, 168), Rgb(235, 160, 172),
    Rgb(250, 179, 135), Rgb(249, 226, 175), Rgb(166, 227, 161), Rgb(148, 226, 213),
    Rgb(137, 220, 235), Rgb(116, 199, 236), Rgb(137, 180, 250), Rgb(180, 190, 254)]

  datatype Field = Field(name: string, value: string, inline: bool)

  datatype Embed = Embed(
    title: Option<string>,
    description: Option<string>,
    color: Option<Color>,
    footer: Option<string>,
    fields: seq<Field>,
    image: Option<string>,
    url: Option<string>)

  const EmptyEmbed := Embed(None, None, None, None, [], None, None)

  /** One message body: optional plain text, embeds, attached file names, and
      whether only the invoking user sees it. */
  datatype Payload = Payload(text: Option<string>, embeds: seq<Embed>, files: seq<string>, ephemeral: bool)

  function Say(s: string): Payload {
    Payload(Some(s), [], [], false)
  }

  function Whisper(s: string): Payload {
    Payload(Some(s), [], [], true)
  }

  function Card(e: Embed): Payload {
    Payload(None, [e], [], false)
  }

  /** An embed with a title, a description and a colour, nothing else. */
  function Titled(title: string, description: string, color: Color): Embed {
    EmptyEmbed.(title := Some(title), description := Some(description), color := Some(color))
  }

  /** The reply primitives of an interaction. */
  datatype Action = Defer | Reply(p: Payload) | EditReply(p: Payload) | FollowUp(p: Payload)

  datatype ReplyState = Unacknowledged | Deferred | Replied

  /** The poise framework's `send`/`say` on an application context: the
      initial response while the handle is unacknowledged, a follow-up once
      it was deferred or answered (a defer counts as the initial response). */
  function PoiseSend(s: ReplyState, p: Payload): (a: Action)
    ensures !a.Defer? && a.p == p
    ensures a.Reply? <==> s == Unacknowledged
    ensures Step(s, a) == Some(Replied)
  {
    if s == Unacknowledged then Reply(p) else FollowUp(p)
  }

  /** One lifecycle transition, `None` when the action is not allowed. */
  function Step(s: ReplyState, a: Action): Option<ReplyState> {
    match (s, a)
    case (Unacknowledged, Defer) => Some(Deferred)
    case (Unacknowledged, Reply(_)) => Some(Replied)
    case (Deferred, EditReply(_)) => Some(Replied)
    case (Deferred, FollowUp(_)) => Some(Replied)
    case (Replied, FollowUp(_)) => Some(Replied)
    case _ => None
  }

  /** The state after running `trace` from `s`, `None` if some action is not allowed. */
  function Run(s: ReplyState, trace: seq<Action>): Option<ReplyState>
    decreases |trace|
  {
    if trace == [] then Some(s)
    else match Step(s, trace[0])
      case None => None
      case Some(s') => Run(s', trace[1..])
  }

  /** A well-formed invocation: every action allowed from a fresh handle. */
  predicate Valid(trace: seq<Action>) {
    Run(Unacknowledged, trace).Some?
  }

  /** Valid and the user is not left waiting: the handle ends replied. */
  predicate Resolved(trace: seq<Action>) {
    Run(Unacknowledged, trace) == Some(Replied)
  }

  /** The state of the `replied`/`deferred` flags after `trace`; a trace that
      broke the lifecycle reads as replied. */
  function StateAfter(trace: seq<Action>): ReplyState {
    match Run(Unacknowledged, trace)
    case Some(s) => s
    case None => Replied
  }

  lemma {:induction false} RunAppend(s: ReplyState, a: seq<Action>, b: seq<Action>)
    ensures Run(s, a + b) == (match Run(s, a) case None => None case Some(t) => Run(t, b))
    decreases |a|
  {
    if a == [] {
      assert a + b == b;
    } else {
      assert (a + b)[1..] == a[1..] + b;
      match Step(s, a[0])
      case None =>
      case Some(s') => RunAppend(s', a[1..], b);
    }
  }

  /** Running one or two actions from a fresh handle is stepping through them. */
  lemma RunShort(a: Action, b: Action)
    ensures Run(Unacknowledged, [a]) == Step(Unacknowledged, a)
    ensures Run(Unacknowledged, [a, b]) == match Step(Unacknowledged, a) case None => None case Some(s) => Step(s, b)
  {
    assert [a, b][1..] == [b];
    assert [b][1..] == [];
    assert [a][1..] == [];
    match Step(Unacknowledged, a)
    case None =>
    case Some(s) =>
      assert Run(s, [b]) == match Step(s, b) case None => None case Some(t) => Run(t, []);
  }

  predicate IsFollowUp(a: Action) {
    a.FollowUp?
  }

  /** Any number of follow-ups keeps a replied handle replied. */
  lemma {:induction false} FollowUpsStayReplied(trace: seq<Action>)
    requires forall i :: 0 <= i < |trace| ==> IsFollowUp(trace[i])
    ensures Run(Replied, trace) == Some(Replied)
    decreases |trace|
  {
    if trace != [] {
      FollowUpsStayReplied(trace[1..]);
    }
  }

  /** Once a handle has left `Unacknowledged` it never reaches a `Reply`:
      a deferred invocation only edits and follows up. */
  lemma {:induction false} NoReplyAfterAcknowledge(s: ReplyState, trace: seq<Action>)
    requires s != Unacknowledged
    requires Run(s, trace).Some?
    ensures forall i :: 0 <= i < |trace| ==> !trace[i].Reply? && !trace[i].Defer?
    decreases |trace|
  {
    if trace != [] {
      var s' := Step(s, trace[0]).value;
      NoReplyAfterAcknowledge(s', trace[1..]);
      forall i | 1 <= i < |trace|
        ensures !trace[i].Reply? && !trace[i].Defer?
      {
        assert trace[i] == trace[1..][i - 1];
      }
    }
  }

  /** A valid trace that starts with a defer never calls `reply` again. */
  lemma DeferredNeverReplies(trace: seq<Action>)
    requires Valid(trace) && |trace| > 0 && trace[0] == Defer
    ensures forall i :: 0 <= i < |trace| ==> !trace[i].Reply?
  {
    NoReplyAfterAcknowledge(Deferred, trace[1..]);
    forall i | 1 <= i < |trace|
      ensures !trace[i].Reply?
    {
      assert trace[i] == trace[1..][i - 1];
    }
  }

  /** At most one `reply`/`editReply` in a valid trace. */
  lemma {:induction false} AtMostOneAnswer(s: ReplyState, trace: seq<Action>, i: nat, j: nat)
    requires Run(s, trace).Some?
    requires i < j < |trace|
    requires trace[i].Reply? || trace[i].EditReply?
    ensures !trace[j].Reply? && !trace[j].EditReply?
    decreases |trace|
  {
    var s' := Step(s, trace[0]).value;
    if i == 0 {
      assert s' == Replied;
      ReplyOnlyFollowUps(trace[1..]);
      assert trace[j] == trace[1..][j - 1];
    } else {
      assert trace[i] == trace[1..][i - 1];
      assert trace[j] == trace[1..][j - 1];
      AtMostOneAnswer(s', trace[1..], i - 1, j - 1);
    }
  }

  /** From `Replied` the only allowed action is a follow-up. */
  lemma {:induction false} ReplyOnlyFollowUps(trace: seq<Action>)
    requires Run(Replied, trace).Some?
    ensures forall i :: 0 <= i < |trace| ==> IsFollowUp(trace[i])
    decreases |trace|
  {
    if trace != [] {
      ReplyOnlyFollowUps(trace[1..]);
      forall i | 1 <= i < |trace|
        ensures IsFollowUp(trace[i])
      {
        assert trace[i] == trace[1..][i - 1];
      }
    }
  }
}
