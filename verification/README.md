# SmartPack checklist service, modelled in Dafny

SmartPack is a browser trip-packing assistant. Its one piece of logic is
`src/ChecklistService.js`. That file:

- builds a prompt from the trip and the current weather;
- posts the prompt to a chat-completion provider;
- trims the reply and splits it into packing items on `/,\s*|\n/`;
- in `generateChecklist`, chains the weather lookup and the recommendation
  request, and hands exactly one list to the UI's `setChecklist` callback.
  That list is the real packing list or one of three fixed placeholders.

The model keeps all of this as pure functions. The two network calls are inputs:

- The weather lookup is an `Option<WeatherData>`. `None` is the `null` that
  `fetchWeatherData` returns.
- The recommendation provider is a function from the prompt text to the HTTP
  reply (`Option<HttpReply>`). `None` is a rejected `fetch`.

Modules:

- `Wrappers`: the `Option` type.
- `Whitespace`: the white-space set JavaScript uses for both `trim` and `\s`,
  which is the WhiteSpace and LineTerminator productions of the ECMAScript
  language specification, with Space_Separator taken from current Unicode.
  Also the longest white-space prefix and suffix, and `trim`.
- `Interleaving`: fixed pieces with values between them. This is what a
  template literal produces, and also what a split string is made of (items
  with delimiters between them).
- `ResponseParser`: `Split` is the reference definition of
  `split(/,\s*|\n/)`. `SplitByPattern` runs the ECMAScript
  `RegExp.prototype[@@split]` scanning algorithm and is proved equal to
  `Split`. `IsSplitting` is a declarative description of a valid split;
  `Split` is proved to be the only value that meets it. `ParseRecommendations`
  is trim followed by split.
- `Prompt`: the template (line 24), a reader that recovers the five inputs
  from a prompt, and lemmas about what every prompt contains.
- `Recommendations`: the reply handling of `fetchOpenAIRecommendations`.
- `Checklist`: `generateChecklist`. It returns a `Run`: the lists passed to
  `setChecklist`, in order, and the arguments recommendations were requested
  with, if any.
- `Scenarios`: concrete runs derived from the general lemmas.

Two consequences of the code that are easy to miss:

- The generic "An error occurred while generating the checklist." placeholder
  is not only for unexpected faults. `weatherData.current.weather_descriptions[0]`
  (line 86) throws a TypeError for any payload without `current` or
  `current.weather_descriptions`, and the `catch` at line 100 publishes the
  placeholder.
- An empty `weather_descriptions` array, or a missing `temperature`, does not
  throw. The template literal writes `undefined` into the prompt
  (`Scenarios.NoDescription`).

Two behaviours of the parser may surprise a reader:

- Items are not trimmed one by one. An item after a line feed keeps its
  leading white space, and any item before a delimiter keeps its trailing
  white space.
- Empty items are kept.

Also, a published list alone cannot tell a failure apart from a reply: a reply
whose text equals a placeholder produces the same list
(`Scenarios.PlaceholderIndistinguishable`).

## Model

| member | source | states |
|---|---|---|
| Whitespace.WhitespaceListed | src/ChecklistService.js:56-57 | a character is one `trim` removes and `\s` matches exactly when it is one of the 25 listed: tab, vertical tab, form feed, U+FEFF, the Space_Separator characters (space, U+00A0, U+1680, U+2000 to U+200A, U+202F, U+205F, U+3000), and the line terminators LF, CR, U+2028, U+2029 |
| Whitespace.LeadingWhitespace | src/ChecklistService.js:56-57 | the length of the longest white-space prefix: everything before it is white space and the next character is not; this is what greedy `\s*` takes after a comma and what `trim` drops at the start |
| Whitespace.TrailingWhitespace | src/ChecklistService.js:56 | the length of the longest white-space suffix, which `trim` drops at the end |
| Whitespace.Trim | src/ChecklistService.js:56 | the trimmed reply has no white space at either end, is no longer than the input, and is empty exactly when the reply is all white space |
| Whitespace.TrimDecomposes | src/ChecklistService.js:56 | trimming keeps a contiguous middle part and removes only white space around it |
| Whitespace.TrimUnique | src/ChecklistService.js:56 | any trimmed text surrounded by any white space trims back to exactly that text |
| Whitespace.TrimIdempotent | src/ChecklistService.js:56 | trimming twice is trimming once |
| ResponseParser.DelimiterIsWholeMatch | src/ChecklistService.js:57 | a delimiter (a single line feed, or a comma followed by any run of white space, the two alternatives of the split pattern) is exactly a string the pattern matches in full from its first character |
| ResponseParser.Split | src/ChecklistService.js:57 | splitting always yields at least one item, and no item contains a comma or a line feed |
| ResponseParser.Delimiters | src/ChecklistService.js:57 | every delimiter found is a match of the pattern (a line feed, or a comma followed by white space), and there is exactly one item more than there are delimiters |
| ResponseParser.DelimiterLength | src/ChecklistService.js:57 | the match at a comma or line feed is non-empty and is a delimiter, and a comma match takes all the white space after it, as greedy `\s*` does |
| ResponseParser.MatchAt | src/ChecklistService.js:57 | the pattern matches at an index exactly when a comma or line feed is there; the match is non-empty, is a delimiter, and after a comma it leaves no white space next |
| ResponseParser.SplitReconstructs | src/ChecklistService.js:57 | the items and delimiters form a valid split, and putting the delimiters back between the items rebuilds the input exactly, in order |
| ResponseParser.SplitUnique | src/ChecklistService.js:57 | any items and delimiters that form a valid split and rebuild the input are exactly what Split and Delimiters return |
| ResponseParser.SplitByPattern | src/ChecklistService.js:57 | the ECMAScript split algorithm (scan, match at the index, close the item, resume after the match, then push the rest) returns exactly Split of the input, including `[""]` for the empty string |
| ResponseParser.ParseRecommendations | src/ChecklistService.js:56-57 | trim then split gives at least one item with no commas or line feeds in it, and gives `[""]` exactly when the reply is blank |
| ResponseParser.ParseCharacterised | src/ChecklistService.js:56-57 | a list is the parse of a reply if and only if some delimiters, placed between its items, rebuild the trimmed reply as a valid split |
| ResponseParser.ParseReconstructs | src/ChecklistService.js:56-57 | the parsed items, with the matched delimiters between them, rebuild the trimmed reply in source order, and there is one delimiter fewer than items |
| ResponseParser.ParseItemEdges | src/ChecklistService.js:56-57 | the first item has no leading white space, the last has no trailing white space, and an item after a comma never starts with white space |
| ResponseParser.JoinRoundTrip | src/ChecklistService.js:24-57 | a reply that lists non-empty items with no commas or line feeds in them and no white space at their ends, separated by any single delimiter such as the ", " the prompt asks for, parses back to exactly those items |
| Prompt.BuildPrompt | src/ChecklistService.js:24 | whatever the inputs, the prompt opens with the request for 15 items and closes with the formatting instructions and the demand that passport come first |
| Prompt.ReadBuiltPrompt | src/ChecklistService.js:24 | reading a built prompt back, knowing the input lengths, recovers all five inputs, so each appears verbatim in template order |
| Prompt.BuildReadPrompt | src/ChecklistService.js:24 | any text that reads back as some inputs is exactly the prompt built from them, so only the template's fixed text surrounds the holes |
| Prompt.PromptMentions | src/ChecklistService.js:24 | the prompt contains the location, the weather description, the temperature followed by "°C", the trip type, the duration followed by " days", "15 items" and "passport as the first item" |
| Recommendations.FirstContent | src/ChecklistService.js:56 | `data.choices[0].message.content` is read exactly when `choices` exists and is non-empty and its first entry has a message with string content, and then it is that content; otherwise None, where JavaScript throws a TypeError (or `trim` does, on a non-string) |
| Recommendations.HandleReply | src/ChecklistService.js:49-63 | the result is the parse of the content when the reply is ok and delivers a string at `choices[0].message.content`; in every other case it is null |
| Recommendations.FetchRecommendations | src/ChecklistService.js:18-64 | the provider is asked with exactly the prompt built from the five arguments; the result is the parse of the delivered content, or null when nothing is delivered |
| Checklist.Render | src/ChecklistService.js:24 | a value in a template literal renders as its text, and an absent value as `undefined` |
| Checklist.WeatherDetails | src/ChecklistService.js:86-87 | the description and temperature can be read exactly when the payload has `current` and `current.weather_descriptions`; the description is the first entry, or `undefined` when the list is empty, and the temperature is its text, or `undefined` when absent |
| Checklist.RequestFor | src/ChecklistService.js:86-90 | the request carries location, duration and trip type as given, and the description and temperature that WeatherDetails reads |
| Checklist.GenerateChecklist | src/ChecklistService.js:76-104 | every path publishes exactly once. No weather gives `["Could not fetch weather data"]` with no request. An unreadable payload gives the generic error placeholder with no request. Otherwise the request uses the first description and the temperature, and the result is the parsed list, or `["Could not generate recommendations"]` when nothing is delivered |
| Checklist.ProviderUnusedWithoutWeather | src/ChecklistService.js:79-87 | when the weather is missing or unreadable, the run does not depend on the provider at all |
| Checklist.RunDependsOnlyOnReply | src/ChecklistService.js:89-98 | two providers that answer the request's prompt the same way give the same run, so the workflow is deterministic |
| Checklist.PublishedOutcomes | src/ChecklistService.js:76-104 | the published list is one of the three placeholders or the parse of content the provider delivered |
| Scenarios.EmptyItemsKept | src/ChecklistService.js:57 | `"a,,b"` parses to `["a", "", "b"]` |
| Scenarios.CommaSwallowsLineFeeds | src/ChecklistService.js:57 | `"a,\n b"` parses to `["a", "b"]` |
| Scenarios.MixedDelimiters | src/ChecklistService.js:57 | `"Passport, Sunscreen\nHat"` parses to `["Passport", "Sunscreen", "Hat"]` |
| Scenarios.LineFeedKeepsIndentation | src/ChecklistService.js:57 | `"a\n b"` parses to `["a", " b"]`: white space after a line feed stays in the item |
| Scenarios.SurroundingWhitespace | src/ChecklistService.js:56-57 | `"  Hat, Gloves \n"` parses to `["Hat", "Gloves"]` |
| Scenarios.BlankReplies | src/ChecklistService.js:56-57 | an empty or all-white-space reply parses to `[""]` |
| Scenarios.ParisTrip | src/ChecklistService.js:18-104 | Paris, Sunny, 22, leisure, 5: the request carries those values, the prompt mentions "Paris", "Sunny", "leisure", "5 days" and "22°C", and a 15-item reply separated by ", " is published as those 15 items with Passport first |
| Scenarios.WeatherServerError | src/ChecklistService.js:79-83 | a failed weather lookup publishes exactly the weather placeholder |
| Scenarios.NoDescription | src/ChecklistService.js:86-90 | an empty description list does not throw; the prompt carries "undefined" for the description |
| Scenarios.PlaceholderIndistinguishable | src/ChecklistService.js:92-98 | a reply whose text is "Could not generate recommendations" publishes the same list as a failed request |

## Left out

- The HTTP plumbing is left out: the `fetch` calls, headers, bearer credential, `JSON.stringify`, model name and `max_tokens` value (src/ChecklistService.js:19-46), and the API keys read from the environment. This is network I/O. The provider and the weather outcome are parameters.
- `src/weatherService.js` is network I/O, so its decision (a status that is not ok, an empty body or an `error` field gives `null`) is folded into the `Option<WeatherData>` input and not modelled separately.
- `src/PackingChecklist.js` is a React component and is not part of this model. Its handler is a separate copy of the orchestration: it lowercases the description, does nothing when the weather fails, and can pass `null` to the list state.
- `console.error` logging is left out. It has no effect on the result.
- `async`/`await` suspension is left out, along with the last-write-wins race between overlapping requests. The model is one sequential run.
- Number-to-text rendering of temperature and duration is left out, to avoid floating-point formatting. Both reach the prompt as text: the duration as given, and the temperature as its rendered text.
- The JSON decoding of the reply body is abstracted. A body that is not JSON, or where some step of `choices[0].message.content` is missing or not a string, is the corresponding `None`.
- `weather_descriptions` is modelled as absent or a list. A string value, which JavaScript would index by character, is not modelled.
- Recommendations.FetchRecommendations: does not check that the provider returned 15 items with passport first, because the code does not check this either. Output cut short by the token limit is not modelled.
- Strings are sequences of Unicode scalar values, not UTF-16 code units, throughout (Whitespace.Trim, ResponseParser.Split, Prompt.BuildPrompt and the rest). A lone surrogate cannot be represented. For any string without one the results agree, because every delimiter and white-space character is a single code unit outside the surrogate range.
- ResponseParser.SplitByPattern: omits the split limit of 2^32 - 1 items, which no reply can reach.
- Checklist.GenerateChecklist: does not model a weather value whose conversion to text throws. An example is a description or temperature object with no callable `toString` and a `valueOf` that returns an object. The prompt template (line 24) is evaluated before the `try` at line 37. Such a value would therefore make `fetchOpenAIRecommendations` reject instead of returning null, and the `catch` at lines 100-102 would publish the generic placeholder, not "Could not generate recommendations". The model takes every weather value as already-rendered text, so this path cannot occur in it.
- Checklist.GenerateChecklist: does not model a `setChecklist` callback that throws. Such a callback would lead the `catch` block to publish a second time.
