/** Concrete runs of the parser and of the orchestration, derived from the
    general lemmas. */
module Scenarios {

  import opened Wrappers
  import opened Whitespace
  import opened Interleaving
  import opened ResponseParser
  import opened Prompt
  import opened Recommendations
  import opened Checklist

  /** A reply with no white space at its ends parses to any splitting of it. */
  lemma ParsesTo(content: string, items: seq<string>, delims: seq<string>)
    requires Trimmed(content)
    requires IsSplitting(items, delims) && Interleave(items, delims) == content
    ensures ParseRecommendations(content) == items
  {
    TrimUnique([], content, []);
    assert [] + content + [] == content;
    ParseCharacterised(content, items);
  }

  /** Empty items are kept. */
  lemma EmptyItemsKept()
    ensures ParseRecommendations("a,,b") == ["a", "", "b"]
  {
    ParsesTo("a,,b", ["a", "", "b"], [",", ","]);
  }

  /** A comma with white space and line feeds after it is one delimiter. */
  lemma CommaSwallowsLineFeeds()
    ensures ParseRecommendations("a,\n b") == ["a", "b"]
  {
    ParsesTo("a,\n b", ["a", "b"], [",\n "]);
  }

  lemma MixedDelimiters()
    ensures ParseRecommendations("Passport, Sunscreen\nHat") == ["Passport", "Sunscreen", "Hat"]
  {
    var items, delims := ["Passport", "Sunscreen", "Hat"], [", ", "\n"];
    assert Unbroken(items[0]) && Unbroken(items[1]) && Unbroken(items[2]);
    assert IsDelimiter(delims[0]) && IsDelimiter(delims[1]);
    assert Interleave(items[2..], delims[2..]) == "Hat";
    assert Interleave(items[1..], delims[1..]) == "Sunscreen\nHat";
    assert Interleave(items, delims) == "Passport, Sunscreen\nHat";
    assert IsSplitting(items, delims);
    ParsesTo("Passport, Sunscreen\nHat", items, delims);
  }

  /** White space after a line feed is not removed. */
  lemma LineFeedKeepsIndentation()
    ensures ParseRecommendations("a\n b") == ["a", " b"]
  {
    ParsesTo("a\n b", ["a", " b"], ["\n"]);
  }

  lemma HatGlovesSplitting()
    ensures IsSplitting(["Hat", "Gloves"], [", "])
    ensures Interleave(["Hat", "Gloves"], [", "]) == "Hat, Gloves"
  {
    var items, delims := ["Hat", "Gloves"], [", "];
    assert Unbroken(items[0]) && Unbroken(items[1]) && IsDelimiter(delims[0]);
    assert Interleave(items[1..], delims[1..]) == "Gloves";
  }

  lemma HatGlovesTrim()
    ensures Trim("  Hat, Gloves \n") == "Hat, Gloves"
  {
    assert Trimmed("Hat, Gloves");
    TrimUnique("  ", "Hat, Gloves", " \n");
    assert "  " + "Hat, Gloves" + " \n" == "  Hat, Gloves \n";
  }

  /** Surrounding white space goes. */
  lemma SurroundingWhitespace()
    ensures ParseRecommendations("  Hat, Gloves \n") == ["Hat", "Gloves"]
  {
    HatGlovesSplitting();
    HatGlovesTrim();
    ParseCharacterised("  Hat, Gloves \n", ["Hat", "Gloves"]);
  }

  /** A blank reply is one empty item. */
  lemma BlankReplies()
    ensures ParseRecommendations(" \t\n ") == [""]
    ensures ParseRecommendations("") == [""]
  {
    assert AllWhitespace(" \t\n ");
  }

  const Paris: PromptInputs := PromptInputs("Paris", "Sunny", "22", "leisure", "5")

  const ParisItems: seq<string> := [
    "Passport", "Sunglasses", "Sunscreen", "T-shirts", "Shorts",
    "Sandals", "Hat", "Swimsuit", "Light jacket", "Camera",
    "Phone charger", "Guidebook", "Water bottle", "Toiletries", "Backpack"]

  /** A provider that answers every prompt with `content`. */
  function Answering(content: string): Provider
  {
    _ => Some(HttpReply(true, Some(Completion(Some([Choice(Some(Message(Some(content))))])))))
  }

  lemma ParisItemsClean()
    ensures forall i :: 0 <= i < |ParisItems| ==> CleanItem(ParisItems[i])
  {
    FirstFiveClean();
    MiddleFiveClean();
    LastFiveClean();
  }

  lemma FirstFiveClean()
    ensures CleanItem("Passport") && CleanItem("Sunglasses") && CleanItem("Sunscreen")
    ensures CleanItem("T-shirts") && CleanItem("Shorts")
  {
  }

  lemma MiddleFiveClean()
    ensures CleanItem("Sandals") && CleanItem("Hat") && CleanItem("Swimsuit")
    ensures CleanItem("Light jacket") && CleanItem("Camera")
  {
  }

  lemma LastFiveClean()
    ensures CleanItem("Phone charger") && CleanItem("Guidebook") && CleanItem("Water bottle")
    ensures CleanItem("Toiletries") && CleanItem("Backpack")
  {
  }

  /** Paris, sunny, 22 degrees, a five-day leisure trip: the request carries
      those values, and a reply listing 15 items separated by ", " is
      published as exactly those 15 items, passport first. */
  lemma ParisTrip()
    ensures var weather := Some(WeatherData(Some(Current(Some(["Sunny"]), Some("22")))));
      var run := GenerateChecklist("Paris", "5", "leisure", weather, Answering(Join(ParisItems, ", ")));
      && run.request == Some(Paris)
      && Occurs("Paris", BuildPrompt(Paris))
      && Occurs("Sunny", BuildPrompt(Paris))
      && Occurs("leisure", BuildPrompt(Paris))
      && Occurs("5" + Days, BuildPrompt(Paris))
      && Occurs("22" + Degrees, BuildPrompt(Paris))
      && run.published == [ParisItems]
      && |run.published[0]| == 15
      && run.published[0][0] == "Passport"
  {
    var content := Join(ParisItems, ", ");
    PromptMentions(Paris);
    ParisItemsClean();
    assert IsDelimiter(", ");
    JoinRoundTrip(ParisItems, ", ");
    var weather := Some(WeatherData(Some(Current(Some(["Sunny"]), Some("22")))));
    assert RequestFor("Paris", "5", "leisure", weather.value) == Paris;
    assert Delivers(Answering(content)(BuildPrompt(Paris)), content);
  }

  /** The weather provider answers with status 500, so `fetchWeatherData`
      resolves to null. */
  lemma WeatherServerError(provider: Provider)
    ensures GenerateChecklist("Paris", "5", "leisure", None, provider).published == [WeatherUnavailable]
  {
  }

  /** An empty `weather_descriptions` array does not throw: the prompt says
      "undefined" where the description belongs. */
  lemma NoDescription(provider: Provider)
    ensures var weather := Some(WeatherData(Some(Current(Some([]), Some("22")))));
      GenerateChecklist("Paris", "5", "leisure", weather, provider).request
        == Some(PromptInputs("Paris", "undefined", "22", "leisure", "5"))
  {
  }

  lemma PlaceholderParsesToItself()
    ensures ParseRecommendations(RecommendationsUnavailable[0]) == RecommendationsUnavailable
  {
    var text := RecommendationsUnavailable[0];
    assert Unbroken(text) && Trimmed(text);
    TrimUnique([], text, []);
    assert [] + text + [] == text;
    SplitUnbroken(text);
  }

  /** A published list does not tell a failure from a reply: a model that
      answers with a placeholder's text yields the very list the failure
      path publishes. */
  lemma PlaceholderIndistinguishable()
    ensures var weather := Some(WeatherData(Some(Current(Some(["Sunny"]), Some("22")))));
      GenerateChecklist("Paris", "5", "leisure", weather, Answering(RecommendationsUnavailable[0])).published
        == GenerateChecklist("Paris", "5", "leisure", weather, _ => None).published
  {
    var weather := Some(WeatherData(Some(Current(Some(["Sunny"]), Some("22")))));
    var text := RecommendationsUnavailable[0];
    var answering: Provider := Answering(text);
    var silent: Provider := _ => None;
    assert RequestFor("Paris", "5", "leisure", weather.value) == Paris;
    var run1 := GenerateChecklist("Paris", "5", "leisure", weather, answering);
    var run2 := GenerateChecklist("Paris", "5", "leisure", weather, silent);
    assert run1.request == Some(Paris) && run2.request == Some(Paris);
    assert Delivers(answering(BuildPrompt(Paris)), text);
    PlaceholderParsesToItself();
    assert run1.published == [RecommendationsUnavailable];
    assert silent(BuildPrompt(Paris)) == None;
    assert run2.published == [RecommendationsUnavailable];
  }

}
