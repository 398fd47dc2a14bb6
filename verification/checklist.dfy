/** `generateChecklist`: look up the weather, ask for recommendations, and
    hand exactly one list to the `setChecklist` callback. The two lookups are
    parameters: the weather outcome as `fetchWeatherData` resolves it, and the
    provider the recommendation request goes to. */
module Checklist {

  import opened Wrappers
  import opened Prompt
  import opened ResponseParser
  import opened Recommendations

  // The three placeholder lists.
  const WeatherUnavailable: seq<string> := ["Could not fetch weather data"]
  const RecommendationsUnavailable: seq<string> := ["Could not generate recommendations"]
  const GenerationFailed: seq<string> := ["An error occurred while generating the checklist."]

  /** `weatherData.current`: each value as the text it renders to in a
      template literal; None when the property is absent. */
  datatype Current = Current(weatherDescriptions: Option<seq<string>>, temperature: Option<string>)

  /** A weather payload that `fetchWeatherData` let through (it returns null
      instead when the status is not ok, the body is empty, or it carries an
      `error` field). */
  datatype WeatherData = WeatherData(current: Option<Current>)

  /** What one call does: the lists passed to `setChecklist`, in order, and
      the arguments recommendations were requested with, if they were. */
  datatype Run = Run(published: seq<seq<string>>, request: Option<PromptInputs>)

  /** How a template literal renders a value: `undefined` when it is absent. */
  function Render(value: Option<string>): (text: string)
    ensures value.Some? ==> text == value.value
    ensures value.None? ==> text == "undefined"
  {
    match value
    case Some(text) => text
    case None => "undefined"
  }

  /** The payload can be read without a TypeError:
      `weatherData.current.weather_descriptions[0]` needs both objects. */
  predicate Readable(data: WeatherData)
  {
    data.current.Some? && data.current.value.weatherDescriptions.Some?
  }

  /** `weather_descriptions[0]` and `temperature`, as the prompt will show them
      (an empty description list yields `undefined`, not an error). */
  function WeatherDetails(data: WeatherData): (details: Option<(string, string)>)
    ensures details.Some? <==> Readable(data)
    ensures details.Some? ==>
      var current := data.current.value;
      var descriptions := current.weatherDescriptions.value;
      && (|descriptions| > 0 ==> details.value.0 == descriptions[0])
      && (|descriptions| == 0 ==> details.value.0 == "undefined")
      && (current.temperature.Some? ==> details.value.1 == current.temperature.value)
      && (current.temperature.None? ==> details.value.1 == "undefined")
  {
    match data.current
    case None => None
    case Some(current) =>
      match current.weatherDescriptions
      case None => None
      case Some(descriptions) =>
        var first := if |descriptions| > 0 then Some(descriptions[0]) else None;
        Some((Render(first), Render(current.temperature)))
  }

  /** The request a readable payload leads to: location, duration and trip
      type as given, with the description and temperature WeatherDetails reads. */
  function RequestFor(location: string, duration: string, tripType: string, data: WeatherData): (request: PromptInputs)
    requires Readable(data)
    ensures (request.weatherDescription, request.temperature) == WeatherDetails(data).value
    ensures request.location == location && request.duration == duration && request.tripType == tripType
  {
    var (description, temperature) := WeatherDetails(data).value;
    PromptInputs(location, description, temperature, tripType, duration)
  }

  function GenerateChecklist(location: string, duration: string, tripType: string,
                             weather: Option<WeatherData>, provider: Provider): (run: Run)
    // Every path publishes exactly once.
    ensures |run.published| == 1
    // No weather: the weather placeholder, and no recommendation request.
    ensures weather.None? ==> run == Run([WeatherUnavailable], None)
    // A payload the code cannot read: the generic placeholder, and no request.
    ensures weather.Some? && !Readable(weather.value) ==> run == Run([GenerationFailed], None)
    // A readable payload: recommendations are requested with its first
    // description and temperature.
    ensures weather.Some? && Readable(weather.value) ==>
      run.request == Some(RequestFor(location, duration, tripType, weather.value))
    // After a request: the parsed list when the provider delivered content,
    // the recommendations placeholder otherwise.
    ensures run.request.Some? ==>
      var reply := provider(BuildPrompt(run.request.value));
      && (forall content :: Delivers(reply, content) ==> run.published == [ParseRecommendations(content)])
      && ((forall content :: !Delivers(reply, content)) ==> run.published == [RecommendationsUnavailable])
  {
    match weather
    case None => Run([WeatherUnavailable], None)
    case Some(data) =>
      match WeatherDetails(data)
      // Reading the payload throws; the catch block publishes the generic placeholder.
      case None => Run([GenerationFailed], None)
      case Some(_) =>
        var request := RequestFor(location, duration, tripType, data);
        var recommendations := FetchRecommendations(location, duration, tripType,
                                                    request.weatherDescription, request.temperature, provider);
        if recommendations.None? then Run([RecommendationsUnavailable], Some(request))
        else Run([recommendations.value], Some(request))
  }

  /** Until the weather is in hand and readable the provider is never
      consulted: the run is the same whatever the provider would answer. */
  lemma ProviderUnusedWithoutWeather(location: string, duration: string, tripType: string,
                                     weather: Option<WeatherData>, provider1: Provider, provider2: Provider)
    requires weather.None? || !Readable(weather.value)
    ensures GenerateChecklist(location, duration, tripType, weather, provider1)
         == GenerateChecklist(location, duration, tripType, weather, provider2)
  {
  }

  /** The workflow is deterministic: two providers that answer the request's
      prompt alike give the same run. */
  lemma RunDependsOnlyOnReply(location: string, duration: string, tripType: string,
                              weather: Option<WeatherData>, provider1: Provider, provider2: Provider)
    requires weather.Some? && Readable(weather.value)
    requires var request := RequestFor(location, duration, tripType, weather.value);
      provider1(BuildPrompt(request)) == provider2(BuildPrompt(request))
    ensures GenerateChecklist(location, duration, tripType, weather, provider1)
         == GenerateChecklist(location, duration, tripType, weather, provider2)
  {
  }

  /** The one published list is one of the three placeholders or the parse
      of content the provider delivered; nothing partial is ever shown. */
  lemma PublishedOutcomes(location: string, duration: string, tripType: string,
                          weather: Option<WeatherData>, provider: Provider)
    ensures var run := GenerateChecklist(location, duration, tripType, weather, provider);
      || run.published[0] == WeatherUnavailable
      || run.published[0] == GenerationFailed
      || run.published[0] == RecommendationsUnavailable
      || (run.request.Some? &&
          exists content :: (Delivers(provider(BuildPrompt(run.request.value)), content)
                             && run.published[0] == ParseRecommendations(content)))
  {
    var run := GenerateChecklist(location, duration, tripType, weather, provider);
    if run.request.Some? {
      var reply := provider(BuildPrompt(run.request.value));
      if content :| Delivers(reply, content) {
        assert run.published[0] == ParseRecommendations(content);
      }
    }
  }

}
