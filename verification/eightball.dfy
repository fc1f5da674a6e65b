/** The `/8ball` command: a random answer from forty, in a random accent
    colour, shown alone or under the question when one of a sensible length
    was asked. */
module EightBall {
  import opened Text
  import opened Replies
  import opened Chance

  const Responses: seq<string> := [
    "It is certain", "Outlook good", "Most likely", "Signs point to yes", "Yes",
    "It is decidedly so", "As I see it, yes", "You may rely on it", "Yes definitely", "Without a doubt",
    "The odds are in your favor", "All signs say yes", "Absolutely!", "Without hesitation, yes", "The universe says yes",
    "You can bet on it", "Yes, without question", "The answer is a resounding yes", "It's a green light", "Yes, and it's looking great",
    "Don't count on it", "My reply is no", "My sources say no", "Outlook not so good", "Very doubtful",
    "Not a chance", "Outlook is grim", "Absolutely not", "The stars say no", "The answer is no",
    "I wouldn't count on it", "Highly unlikely", "The universe says no", "No way", "The answer is a firm no",
    "Negative vibes only", "The signs aren't good", "It's a red light", "No, and don't ask again", "Signs point to no"]

  const Title: string := "8 Ball Has Spoken"

  /** The longest question shown. */
  const MaxQuestionLength: nat := 254

  const Ball: string := "\U{1F3B1} "

  const QuestionMark: string := "\U{2753} "

  const TooLongText: string := "\U{1F3B1} Your question is too long! Try a shorter question."

  /** The embed for a question (`None` when the option was not given) and
      the two draws: one for the answer, one for the colour. */
  function AnswerEmbed(question: Option<string>, responseDraw: real, colorDraw: real): Embed
    requires IsDraw(responseDraw) && IsDraw(colorDraw)
  {
    var response := Responses[RandomIndex(responseDraw, |Responses|)];
    var base := EmptyEmbed.(color := Some(AccentColors[RandomIndex(colorDraw, |AccentColors|)]), title := Some(Title));
    if question.None? || question.value == [] then base.(description := Some(Ball + response))
    else if |question.value| > MaxQuestionLength then base.(description := Some(TooLongText))
    else base.(fields := [Field(QuestionMark + question.value, Ball + response, false)])
  }

  function Execute(question: Option<string>, responseDraw: real, colorDraw: real): (trace: seq<Action>)
    requires IsDraw(responseDraw) && IsDraw(colorDraw)
  {
    [Reply(Card(AnswerEmbed(question, responseDraw, colorDraw)))]
  }

  /** One reply; the question is echoed exactly when it is non-empty and at
      most 254 characters long, and the answer shown is one of the forty. */
  lemma ExecuteOutcomes(question: Option<string>, responseDraw: real, colorDraw: real)
    requires IsDraw(responseDraw) && IsDraw(colorDraw)
    ensures var trace := Execute(question, responseDraw, colorDraw);
      var e := AnswerEmbed(question, responseDraw, colorDraw);
      && Resolved(trace) && |trace| == 1 && trace[0].p == Card(e)
      && e.title == Some(Title) && e.color.Some? && e.color.value in AccentColors
      && (|e.fields| == 1 <==> question.Some? && 0 < |question.value| <= MaxQuestionLength)
      && (|e.fields| == 1 ==> e.fields[0].name == QuestionMark + question.value && !e.fields[0].inline)
      && (|e.fields| == 1 ==> exists k :: 0 <= k < |Responses| && e.fields[0].value == Ball + Responses[k])
      && (|e.fields| == 0 && e.description != Some(TooLongText) ==> exists k :: 0 <= k < |Responses| && e.description == Some(Ball + Responses[k]))
      && (e.description == Some(TooLongText) <==> question.Some? && |question.value| > MaxQuestionLength)
  {
    var t := Execute(question, responseDraw, colorDraw);
    RunShort(t[0], t[0]);
    var k := RandomIndex(responseDraw, |Responses|);
    assert Ball + Responses[k] != TooLongText by {
      assert |Ball + Responses[k]| <= 2 + 31;
    }
  }

  /** Every answer can come up. */
  lemma EveryResponseReachable(k: nat, question: Option<string>)
    requires k < |Responses|
    requires question.None?
    ensures var d := k as real / |Responses| as real;
      IsDraw(d) && AnswerEmbed(question, d, 0.0).description == Some(Ball + Responses[k])
  {
    RandomIndexReaches(k, |Responses|);
  }
}
