/** Reading the answer text out of a chat completion. */
module AgentUtils {
  import opened Wrappers

  /** A message; `content` is absent, null or a string, the first two both `None`. */
  datatype ChatMessage = ChatMessage(content: Option<string>)

  datatype Choice = Choice(message: Option<ChatMessage>)

  datatype Completion = Completion(choices: Option<seq<Choice>>)

  /** The first choice's message text, when there is a non-empty one. */
  predicate HasFirstText(c: Completion) {
    && c.choices.Some? && |c.choices.value| > 0
    && c.choices.value[0].message.Some?
    && c.choices.value[0].message.value.content.Some?
    && c.choices.value[0].message.value.content.value != ""
  }

  /** `extractFirstText`. */
  function ExtractFirstText(c: Completion): (r: string)
    ensures HasFirstText(c) ==> r == c.choices.value[0].message.value.content.value
    ensures !HasFirstText(c) ==> r == ""
  {
    match c.choices
    case None => ""
    case Some(choices) =>
      if |choices| == 0 then ""
      else match choices[0].message
        case None => ""
        case Some(m) => if m.content.None? || m.content.value == "" then "" else m.content.value
  }

  /** The text is empty exactly when there is no first choice with
      non-empty content. */
  lemma EmptyIffNoFirstText(c: Completion)
    ensures ExtractFirstText(c) == "" <==> !HasFirstText(c)
  {
  }

  /** Choices after the first are never read. */
  lemma OnlyFirstChoiceCounts(first: Choice, rest1: seq<Choice>, rest2: seq<Choice>)
    ensures ExtractFirstText(Completion(Some([first] + rest1))) == ExtractFirstText(Completion(Some([first] + rest2)))
  {
  }
}
