/**
 * The reply shown after a successful submission: the text at
 * `candidates[0].content.parts[0].text` of the generative-text response,
 * or a fixed acknowledgment when any step of that path is missing.
 */
module Reply {
  import opened Wrappers

  datatype Part = Part(text: string)
  datatype Content = Content(parts: Option<seq<Part>>)
  datatype Candidate = Candidate(content: Option<Content>)
  datatype GenerateResponse = GenerateResponse(candidates: Option<seq<Candidate>>)

  const DefaultReply := "Thank you for your message! I have received it and will get back to you shortly."

  /** The guard the submit handler tests before it reads the reply text. */
  predicate HasReplyPath(res: GenerateResponse)
  {
    && res.candidates.Some? && |res.candidates.value| > 0
    && res.candidates.value[0].content.Some?
    && res.candidates.value[0].content.value.parts.Some?
    && |res.candidates.value[0].content.value.parts.value| > 0
  }

  /** First element of an optional list, if the list is present and non-empty. */
  function Head<T>(xs: Option<seq<T>>): (r: Option<T>)
    ensures r.Some? <==> xs.Some? && |xs.value| > 0
    ensures r.Some? ==> r.value == xs.value[0]
  {
    match xs
    case Some(s) => if |s| > 0 then Some(s[0]) else None
    case None => None
  }

  /** The optional chain candidates?.[0]?.content?.parts?.[0]?.text. */
  function ReplyText(res: GenerateResponse): Option<string>
  {
    match Head(res.candidates)
    case None => None
    case Some(candidate) =>
      match candidate.content
      case None => None
      case Some(content) =>
        match Head(content.parts)
        case None => None
        case Some(part) => Some(part.text)
  }

  /** The message the submit handler displays for a successful response. */
  function ExtractReply(res: GenerateResponse): (r: string)
    ensures HasReplyPath(res) ==> r == res.candidates.value[0].content.value.parts.value[0].text
    ensures !HasReplyPath(res) ==> r == DefaultReply
  {
    ReplyText(res).GetOr(DefaultReply)
  }

  /** A response carrying exactly one candidate with one part. */
  function SingleReply(text: string): GenerateResponse
  {
    GenerateResponse(Some([Candidate(Some(Content(Some([Part(text)]))))]))
  }

  /** A well-formed response gives its text as the message, even an empty one. */
  lemma ExtractOfSingleReply(text: string)
    ensures ExtractReply(SingleReply(text)) == text
  {
  }
}
