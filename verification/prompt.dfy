/** The prompt `fetchOpenAIRecommendations` sends: a fixed template with five
    holes, filled verbatim (no escaping) in the order location, weather
    description, temperature, trip type, duration. Numbers reach the template
    as the text JavaScript renders for them. */
module Prompt {

  import opened Wrappers
  import opened Interleaving

  /** The five values the template interpolates, each as the text it renders to. */
  datatype PromptInputs = PromptInputs(
    location: string,
    weatherDescription: string,
    temperature: string,
    tripType: string,
    duration: string)

  // The fixed text around the holes, with the phrases the properties below
  // refer to named on their own.
  const FifteenItems: string := "15 items"
  const Degrees: string := "\U{00B0}C"
  const Days: string := " days"
  const PassportFirst: string := "passport as the first item"

  const Opening: string := "Generate a packing list of " + FifteenItems + " for a "
  const TripWith: string := " trip with "
  const TemperatureOf: string := " and a temperature of "
  const DegreesFor: string := Degrees + " for "
  const For: string := " for "
  const Closing: string := Days + ". Provide a simple list of items without any additional explanation."
    + " Separate the items with commas and do not number them. Capitalize first letter for each item."
    + " Have " + PassportFirst + " in any case"

  /** The template literal's fixed pieces, in order. */
  const Template: seq<string> := [Opening, TripWith, TemperatureOf, DegreesFor, For, Closing]

  /** The interpolated values, in the order the template places them. */
  function Holes(inputs: PromptInputs): seq<string>
  {
    [inputs.location, inputs.weatherDescription, inputs.temperature, inputs.tripType, inputs.duration]
  }

  /** The prompt for one request. Whatever the inputs, it opens with the
      request for 15 items and closes with the formatting instructions and
      the demand that passport come first. */
  function BuildPrompt(inputs: PromptInputs): (p: string)
    ensures Opening <= p
    ensures |Closing| <= |p| && p[|p| - |Closing|..] == Closing
  {
    InterleaveStartsWithFirst(Template, Holes(inputs));
    InterleaveEndsWithLast(Template, Holes(inputs));
    Interleave(Template, Holes(inputs))
  }

  /** Reads the values between fixed pieces `texts`, given how long each value
      is: checks each fixed piece at its place and takes the text between. */
  function ReadHoles(texts: seq<string>, lengths: seq<nat>, p: string): (r: Option<seq<string>>)
    requires |texts| == |lengths| + 1
    ensures r.Some? ==> |r.value| == |lengths|
    ensures r.Some? ==> forall k :: 0 <= k < |lengths| ==> |r.value[k]| == lengths[k]
    decreases |lengths|
  {
    var t := texts[0];
    if |lengths| == 0 then
      if p == t then Some([]) else None
    else if |t| + lengths[0] <= |p| && p[..|t|] == t then
      match ReadHoles(texts[1..], lengths[1..], p[|t| + lengths[0]..])
      case None => None
      case Some(rest) => Some([p[|t|..|t| + lengths[0]]] + rest)
    else None
  }

  function Lengths(values: seq<string>): (n: seq<nat>)
    ensures |n| == |values|
    ensures forall k :: 0 <= k < |values| ==> n[k] == |values[k]|
  {
    seq(|values|, k requires 0 <= k < |values| => |values[k]|)
  }

  /** Filling the holes and reading them back gives the values again. */
  lemma {:induction false} ReadInterleaved(texts: seq<string>, values: seq<string>)
    requires |texts| == |values| + 1
    ensures ReadHoles(texts, Lengths(values), Interleave(texts, values)) == Some(values)
    decreases |values|
  {
    if |values| > 0 {
      var t, v := texts[0], values[0];
      var rest := Interleave(texts[1..], values[1..]);
      assert Interleave(texts, values) == t + v + rest;
      assert Lengths(values)[1..] == Lengths(values[1..]);
      ReadInterleaved(texts[1..], values[1..]);
      var p := t + v + rest;
      assert p[..|t|] == t && p[|t|..|t| + |v|] == v && p[|t| + |v|..] == rest;
      assert values == [v] + values[1..];
    }
  }

  /** Whatever reads back as some values is exactly those values put into the holes. */
  lemma {:induction false} InterleaveRead(texts: seq<string>, lengths: seq<nat>, p: string)
    requires |texts| == |lengths| + 1
    requires ReadHoles(texts, lengths, p).Some?
    ensures Interleave(texts, ReadHoles(texts, lengths, p).value) == p
    decreases |lengths|
  {
    if |lengths| > 0 {
      var t := texts[0];
      var cut := |t| + lengths[0];
      InterleaveRead(texts[1..], lengths[1..], p[cut..]);
      var values := ReadHoles(texts, lengths, p).value;
      assert values[1..] == ReadHoles(texts[1..], lengths[1..], p[cut..]).value;
      assert p == p[..|t|] + p[|t|..cut] + p[cut..];
    }
  }

  /** The lengths of the five holes, which say where each piece of fixed text
      must sit. */
  datatype HoleLengths = HoleLengths(location: nat, weatherDescription: nat, temperature: nat, tripType: nat, duration: nat)

  function LengthsOf(inputs: PromptInputs): HoleLengths
  {
    HoleLengths(|inputs.location|, |inputs.weatherDescription|, |inputs.temperature|, |inputs.tripType|, |inputs.duration|)
  }

  function HoleLengthList(n: HoleLengths): seq<nat>
  {
    [n.location, n.weatherDescription, n.temperature, n.tripType, n.duration]
  }

  /** Reads a prompt back into the inputs it was built from, if it is one. */
  function ReadPrompt(p: string, n: HoleLengths): (r: Option<PromptInputs>)
    ensures r.Some? ==> LengthsOf(r.value) == n
  {
    match ReadHoles(Template, HoleLengthList(n), p)
    case Some(vs) => Some(PromptInputs(vs[0], vs[1], vs[2], vs[3], vs[4]))
    case None => None
  }

  /** Every input sits in the prompt verbatim, in template order, and reading
      the prompt back recovers all five. */
  lemma ReadBuiltPrompt(inputs: PromptInputs)
    ensures ReadPrompt(BuildPrompt(inputs), LengthsOf(inputs)) == Some(inputs)
  {
    ReadInterleaved(Template, Holes(inputs));
    assert Lengths(Holes(inputs)) == HoleLengthList(LengthsOf(inputs));
  }

  /** Conversely, a text that reads back as some inputs is exactly the prompt
      built from them: nothing but the template's own text stands around the holes. */
  lemma BuildReadPrompt(p: string, n: HoleLengths)
    requires ReadPrompt(p, n).Some?
    ensures BuildPrompt(ReadPrompt(p, n).value) == p
  {
    InterleaveRead(Template, HoleLengthList(n), p);
    var vs := ReadHoles(Template, HoleLengthList(n), p).value;
    assert Holes(ReadPrompt(p, n).value) == vs;
  }

  /** The prompt names every input verbatim, with the temperature followed by
      "°C" and the duration by " days", and always asks for 15 items with
      passport first. */
  lemma PromptMentions(inputs: PromptInputs)
    ensures var p := BuildPrompt(inputs);
      && Occurs(inputs.location, p)
      && Occurs(inputs.weatherDescription, p)
      && Occurs(inputs.temperature + Degrees, p)
      && Occurs(inputs.tripType, p)
      && Occurs(inputs.duration + Days, p)
      && Occurs(FifteenItems, p)
      && Occurs(PassportFirst, p)
  {
    var p := BuildPrompt(inputs);
    var h := Holes(inputs);
    var t := Template;
    forall k | 0 <= k < 5 ensures Occurs(h[k], p) {
      HoleOccurs(t, h, k);
      OccursInside(t[k], h[k], t[k + 1], p);
    }
    assert Occurs(h[0], p) && Occurs(h[1], p) && Occurs(h[3], p);
    MentionsTemperature(inputs);
    MentionsDuration(inputs);
    MentionsInstructions(inputs);
  }

  lemma MentionsTemperature(inputs: PromptInputs)
    ensures Occurs(inputs.temperature + Degrees, BuildPrompt(inputs))
  {
    var h, t := Holes(inputs), Template;
    HoleOccurs(t, h, 2);
    assert t[2] + h[2] + t[3] == t[2] + (h[2] + Degrees) + " for ";
    OccursInside(t[2], h[2] + Degrees, " for ", BuildPrompt(inputs));
  }

  lemma MentionsDuration(inputs: PromptInputs)
    ensures Occurs(inputs.duration + Days, BuildPrompt(inputs))
  {
    var h, t := Holes(inputs), Template;
    HoleOccurs(t, h, 4);
    var rest := t[5][|Days|..];
    assert t[5] == Days + rest;
    assert t[4] + h[4] + t[5] == t[4] + (h[4] + Days) + rest;
    OccursInside(t[4], h[4] + Days, rest, BuildPrompt(inputs));
  }

  lemma MentionsInstructions(inputs: PromptInputs)
    ensures Occurs(FifteenItems, BuildPrompt(inputs))
    ensures Occurs(PassportFirst, BuildPrompt(inputs))
  {
    MentionsFifteen(inputs);
    MentionsPassport(inputs);
  }

  lemma MentionsFifteen(inputs: PromptInputs)
    ensures Occurs(FifteenItems, BuildPrompt(inputs))
  {
    var h, t := Holes(inputs), Template;
    HoleOccurs(t, h, 0);
    var o0 := "Generate a packing list of ";
    var o1 := " for a ";
    assert t[0] == o0 + FifteenItems + o1;
    assert t[0] + h[0] + t[1] == o0 + FifteenItems + (o1 + h[0] + t[1]);
    OccursInside(o0, FifteenItems, o1 + h[0] + t[1], BuildPrompt(inputs));
  }

  lemma MentionsPassport(inputs: PromptInputs)
    ensures Occurs(PassportFirst, BuildPrompt(inputs))
  {
    var h, t := Holes(inputs), Template;
    HoleOccurs(t, h, 4);
    var c2 := " in any case";
    var c1 := t[5][..|t[5]| - |c2| - |PassportFirst|];
    assert t[5] == c1 + PassportFirst + c2;
    assert t[4] + h[4] + t[5] == (t[4] + h[4] + c1) + PassportFirst + c2;
    OccursInside(t[4] + h[4] + c1, PassportFirst, c2, BuildPrompt(inputs));
  }

}
