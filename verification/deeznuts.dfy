/** The "deez nuts" chime-in: with a configured probability, ask the text
    model for a joke about a message and reply with it unless the model
    declines.  The result says whether the bot chimed in. */
module DeezNuts {
  import opened Text
  import opened Ai
  import opened Chance

  const SystemInstruction: string :=
    "You are a creative Discord bot that makes \"deez nuts\" jokes. "
    + "Generate a creative, funny response that incorporates \"deez nuts\" in a clever way based on "
    + "the user's message. Keep it short (under 50 words) and appropriate for Discord. Be witty and unexpected."
    + "Do not attempt to force the joke. If no good joke can be made, respond with the exact string: \"No good joke.\" "
    + "Here are some examples to guide your response responses:\n\n"
    + "User message: \"Was Howard at the party?\"\n"
    + "Response: Howard deez nuts in your mouth!\n\n"
    + "User message: \"i need to play a flex game on my main to not decay if anybody would like to join me for one\"\n"
    + "Response: Why don't you join deez nuts in your mouth!\n\n"
    + "User message: \"How do I get to your house?\"\n"
    + "Response: First, you gotta get deez nuts in your mouth!\n\n"
    + "User message: \"My mom just died\"\n"
    + "Response: No good joke.\n\n"
    + "User message: \"I'm feeling really down today\"\n"
    + "Response: No good joke.\n\n"
    + "In addition, do not generate jokes for simple messages or messages with just a few words:\n\n"
    + "User message: \"hello\"\n"
    + "Response: No good joke.\n\n"
    + "User message: \"yes\"\n"
    + "Response: No good joke.\n\n"
    + "When returning the response, do not include any additional text or formatting. Just return the joke itself."

  /** The marker the model is told to answer with when no joke fits. */
  const Decline: string := "No good joke"

  /** The prompt for a message: its content, quoted. */
  function PromptFor(content: string): string {
    "User message: \"" + content + "\""
  }

  /** What the chime-in asked the model, the replies it sent and its result. */
  datatype ChimeRun = ChimeRun(request: Option<Request>, replies: seq<string>, chimedIn: bool)

  /** `draw` is the random number compared with the probability;
      `replyOk` tells whether posting the reply succeeded. */
  function Execute(probability: real, draw: real, content: string, answer: TextResult, replyOk: bool): ChimeRun
    requires IsDraw(draw)
  {
    if probability < draw then ChimeRun(None, [], false)
    else
      var request := Request(Some(SystemInstruction), PromptFor(content));
      match answer
      case TextErr => ChimeRun(Some(request), [], false)
      case TextOk(joke) =>
        if Contains(joke, Decline) then ChimeRun(Some(request), [], false)
        else if replyOk then ChimeRun(Some(request), [joke], true)
        else ChimeRun(Some(request), [], false)
  }

  /** The result is true exactly when a reply was posted, and that reply is
      the model's answer verbatim, which never contains the decline marker. */
  lemma ChimesInIffReplied(probability: real, draw: real, content: string, answer: TextResult, replyOk: bool)
    requires IsDraw(draw)
    ensures var r := Execute(probability, draw, content, answer, replyOk);
      && (r.chimedIn <==> |r.replies| == 1)
      && |r.replies| <= 1
      && (r.chimedIn <==> draw <= probability && answer.TextOk? && !Contains(answer.text, Decline) && replyOk)
      && (r.chimedIn ==> r.replies == [answer.text])
      && (r.request.Some? <==> draw <= probability)
      && (r.request.Some? ==> r.request.value == Request(Some(SystemInstruction), PromptFor(content)))
  {
  }

  /** A probability of one or more always asks the model; a negative one
      never does. */
  lemma ProbabilityBounds(probability: real, draw: real, content: string, answer: TextResult, replyOk: bool)
    requires IsDraw(draw)
    ensures probability >= 1.0 ==> Execute(probability, draw, content, answer, replyOk).request.Some?
    ensures probability < 0.0 ==> Execute(probability, draw, content, answer, replyOk) == ChimeRun(None, [], false)
  {
  }

  /** The message content can be read back from the prompt. */
  lemma PromptForRoundTrip(content: string)
    ensures var p := PromptFor(content);
      var head := |"User message: \""|;
      |p| == head + |content| + 1 && p[head..|p| - 1] == content
  {
  }
}
