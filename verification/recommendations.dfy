/** `fetchOpenAIRecommendations`: build the prompt, post it to the
    chat-completion provider, and turn the reply into a packing list or `null`.
    The network exchange is a parameter: the provider is the function from the
    prompt sent to the reply received. */
module Recommendations {

  import opened Wrappers
  import opened Prompt
  import opened ResponseParser

  /** The parts of a reply body the code reads: `choices[0].message.content`.
      A field is None when it is absent; `content` is None as well when it is
      not a string (calling `trim` on it would throw). */
  datatype Message = Message(content: Option<string>)
  datatype Choice = Choice(message: Option<Message>)
  datatype Completion = Completion(choices: Option<seq<Choice>>)

  /** What `fetch` resolves to: the `ok` flag and the body, None when the body
      is not JSON that can be read as an object. */
  datatype HttpReply = HttpReply(ok: bool, body: Option<Completion>)

  /** The provider's answer to a prompt; None when `fetch` itself rejects. */
  type Provider = string -> Option<HttpReply>

  /** The reply delivered `content` as the first choice's message text. */
  predicate Delivers(reply: Option<HttpReply>, content: string)
  {
    match reply
    case Some(HttpReply(true, Some(Completion(Some(choices))))) =>
      |choices| > 0 && choices[0] == Choice(Some(Message(Some(content))))
    case _ => false
  }

  /** `data.choices[0].message.content`, following the path field by field;
      None where JavaScript would throw a TypeError. */
  function FirstContent(body: Completion): (r: Option<string>)
    ensures r.Some? <==>
      && body.choices.Some? && |body.choices.value| > 0
      && body.choices.value[0].message.Some?
      && body.choices.value[0].message.value.content.Some?
    ensures r.Some? ==> body.choices.value[0] == Choice(Some(Message(r)))
  {
    match body.choices
    case None => None
    case Some(choices) =>
      if |choices| == 0 then None
      else
        match choices[0].message
        case None => None
        case Some(message) => message.content
  }

  predicate FirstContentMissing(reply: Option<HttpReply>)
  {
    reply.None? || !reply.value.ok || reply.value.body.None? || FirstContent(reply.value.body.value).None?
  }

  /** Delivering content is the same as the path of FirstContent leading to it. */
  lemma DeliversFirstContent(reply: Option<HttpReply>, content: string)
    ensures Delivers(reply, content) <==>
      reply.Some? && reply.value.ok && reply.value.body.Some? && FirstContent(reply.value.body.value) == Some(content)
  {
  }

  /** The try/catch around the reply: any failure on the way (a rejected
      fetch, a status that is not ok, a body that is not JSON, a missing field)
      ends in `null`; otherwise the content is trimmed and split. */
  function HandleReply(reply: Option<HttpReply>): (r: Option<seq<string>>)
    ensures forall content :: Delivers(reply, content) ==> r == Some(ParseRecommendations(content))
    ensures (forall content :: !Delivers(reply, content)) ==> r == None
  {
    assert (forall content :: !Delivers(reply, content)) ==> FirstContentMissing(reply) by {
      if !FirstContentMissing(reply) {
        DeliversFirstContent(reply, FirstContent(reply.value.body.value).value);
      }
    }
    match reply
    case None => None
    case Some(response) =>
      if !response.ok then None
      else
        match response.body
        case None => None
        case Some(data) =>
          match FirstContent(data)
          case None => None
          case Some(content) =>
            assert forall other :: Delivers(reply, other) ==> other == content by {
              forall other ensures Delivers(reply, other) ==> other == content {
                DeliversFirstContent(reply, other);
              }
            }
            Some(ParseRecommendations(content))
  }

  /** The whole function, with its parameters in the source's order. The
      provider sees exactly the prompt built from the five values. */
  function FetchRecommendations(location: string, duration: string, tripType: string,
                                weatherDescription: string, temperature: string,
                                provider: Provider): (r: Option<seq<string>>)
    ensures var prompt := BuildPrompt(PromptInputs(location, weatherDescription, temperature, tripType, duration));
      && (forall content :: Delivers(provider(prompt), content) ==> r == Some(ParseRecommendations(content)))
      && ((forall content :: !Delivers(provider(prompt), content)) ==> r == None)
  {
    HandleReply(provider(BuildPrompt(PromptInputs(location, weatherDescription, temperature, tripType, duration))))
  }

}
