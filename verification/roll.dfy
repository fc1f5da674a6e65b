/** The `/roll` command: roll a die with a chosen number of sides (six by
    default) and show the result in a random accent colour. */
module Roll {
  import opened Text
  import opened Replies
  import opened Chance

  const DefaultSides: int := 6

  const MinSides: int := 2

  const MaxSides: int := 100

  const InvalidText: string := "Please provide a valid number of sides between 2 and 100."

  const Title: string := "Dice Roll"

  /** The number of sides: the option when given and non-zero (JavaScript
      `||` treats 0 like a missing value), six otherwise. */
  function Sides(option: Option<int>): (s: int)
    ensures option.Some? && option.value != 0 ==> s == option.value
    ensures option.None? || option.value == 0 ==> s == DefaultSides
  {
    if option.None? || option.value == 0 then DefaultSides else option.value
  }

  function RollText(roll: nat, sides: nat): string {
    "\U{1F3B2} You rolled a **" + Decimal(roll) + "** on a D" + Decimal(sides) + "!"
  }

  /** The face shown for a draw: one more than the random index. */
  function Face(rollDraw: real, sides: nat): (face: nat)
    requires IsDraw(rollDraw) && sides > 0
    ensures 1 <= face <= sides
  {
    RandomIndex(rollDraw, sides) + 1
  }

  function Execute(option: Option<int>, rollDraw: real, colorDraw: real): seq<Action>
    requires IsDraw(rollDraw) && IsDraw(colorDraw)
  {
    var sides := Sides(option);
    if sides < MinSides || sides > MaxSides then [Reply(Whisper(InvalidText))]
    else
      var embed := EmptyEmbed.(color := Some(AccentColors[RandomIndex(colorDraw, |AccentColors|)]),
                               title := Some(Title),
                               description := Some(RollText(Face(rollDraw, sides as nat), sides as nat)));
      [Reply(Card(embed))]
  }

  /** One reply: a private refusal exactly when the number of sides is out
      of range, otherwise the roll, a face between 1 and the number of sides. */
  lemma ExecuteOutcomes(option: Option<int>, rollDraw: real, colorDraw: real)
    requires IsDraw(rollDraw) && IsDraw(colorDraw)
    ensures var trace := Execute(option, rollDraw, colorDraw);
      var sides := Sides(option);
      && |trace| == 1 && Resolved(trace)
      && (trace[0].p.ephemeral <==> sides < MinSides || sides > MaxSides)
      && (trace[0].p.ephemeral ==> trace[0].p == Whisper(InvalidText))
      && (!trace[0].p.ephemeral ==>
            var face := Face(rollDraw, sides as nat);
            && 1 <= face <= sides
            && trace[0].p.embeds[0].description == Some(RollText(face, sides as nat))
            && trace[0].p.embeds[0].color.value in AccentColors)
  {
    var t := Execute(option, rollDraw, colorDraw);
    RunShort(t[0], t[0]);
  }

  /** A zero or missing option rolls the default die, exactly as if six had
      been asked for, and that roll is always shown publicly. */
  lemma ZeroMeansDefault(rollDraw: real, colorDraw: real)
    requires IsDraw(rollDraw) && IsDraw(colorDraw)
    ensures Execute(Some(0), rollDraw, colorDraw) == Execute(None, rollDraw, colorDraw)
    ensures Execute(None, rollDraw, colorDraw) == Execute(Some(6), rollDraw, colorDraw)
    ensures !Execute(None, rollDraw, colorDraw)[0].p.ephemeral
  {
  }

  /** Every face of a valid die can come up. */
  lemma EveryFaceReachable(face: nat, sides: nat)
    requires 1 <= face <= sides
    ensures var d := (face - 1) as real / sides as real;
      IsDraw(d) && Face(d, sides) == face
  {
    RandomIndexReaches(face - 1, sides);
  }

  /** The number between the bold markers reads back as the face rolled. */
  lemma RollTextShowsFace(roll: nat, sides: nat)
    ensures var t := RollText(roll, sides);
      var start := |"\U{1F3B2} You rolled a **"|;
      var digits := Decimal(roll);
      t[start..start + |digits|] == digits && DecimalValue(t[start..start + |digits|]) == roll
  {
    DecimalRoundTrip(roll);
  }
}
