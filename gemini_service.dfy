/** The request builder and response interpreter of services/geminiService.ts.
    The generative-image service is not modelled: how the one call ends (a
    response or a thrown value) is an input, and the function reports the request
    it would send, or that it sent none. */
module GeminiService {
  import opened Js

  // ---- The request ----

  const ModelName: string := "gemini-2.5-flash-image-preview"

  /** The prompt is fixed text with the title embedded in double quotes. */
  const PromptIntro: string :=
    "Create a vibrant and eye-catching YouTube thumbnail with a 16:9 aspect ratio.\n" +
    "  - Seamlessly integrate this headshot of the creator into a dynamic, professional design.\n" +
    "  - The video title is: "
  const PromptOutro: string :=
    ". Use bold, contrasting, and easily readable text for this title. Make it the main focus.\n" +
    "  - The design should have vibrant colors and elements that look exciting and clickable. Use a modern and clean aesthetic.\n" +
    "  - Add subtle shadows or highlights to the text and headshot to make them pop.\n" +
    "  - The final image should be clean, high-quality, and optimized for attracting viewers.\n" +
    "  - Do NOT include any text other than the provided title. Output ONLY the final image."

  datatype Modality = Image | Text

  /** One part of the outgoing request: the headshot as inline data, or the prompt. */
  datatype RequestPart = InlineImage(data: Option<string>, mimeType: Option<string>) | PromptText(text: string)

  datatype Request = Request(model: string, parts: seq<RequestPart>, responseModalities: seq<Modality>)

  /** The prompt quotes the title: the fixed introduction, a `"`, the title, a `"`
      and the fixed closing text. */
  function Prompt(title: string): (p: string)
    ensures |p| == |PromptIntro| + |title| + |PromptOutro| + 2
    ensures p[..|PromptIntro|] == PromptIntro && p[|PromptIntro| + 2 + |title|..] == PromptOutro
    ensures p[|PromptIntro|] == '"' && p[|PromptIntro| + 1 + |title|] == '"'
    ensures p[|PromptIntro| + 1..|PromptIntro| + 1 + |title|] == title
  {
    PromptIntro + "\"" + title + "\"" + PromptOutro
  }

  /** Different titles give different prompts: the title can be read back. */
  lemma PromptInjective(t1: string, t2: string)
    requires Prompt(t1) == Prompt(t2)
    ensures t1 == t2
  {
  }

  /** The request sent for a title and an encoded headshot: the image part first,
      then the prompt, asking for image and text back. */
  function BuildRequest(title: string, data: Option<string>, mimeType: Option<string>): (req: Request)
    ensures |req.parts| == 2
    ensures req.parts[0] == InlineImage(data, mimeType)
    ensures req.parts[1].PromptText? && req.parts[1].text == Prompt(title)
    ensures req.model == ModelName && req.responseModalities == [Image, Text]
  {
    Request(ModelName, [InlineImage(data, mimeType), PromptText(Prompt(title))], [Image, Text])
  }

  // ---- The response ----

  /** Inline data as the SDK types it: both fields optional. */
  datatype Blob = Blob(data: Option<string>, mimeType: Option<string>)
  datatype Part = Part(inlineData: Option<Blob>, text: Option<string>)
  datatype Content = Content(parts: Option<seq<Part>>)
  datatype Candidate = Candidate(content: Option<Content>, finishReason: Option<string>)
  datatype Response = Response(candidates: Option<seq<Candidate>>)

  /** How the awaited `generateContent` call ends. */
  datatype Reply = Responded(response: Response) | CallThrew(thrown: Thrown)

  /** What `generateThumbnail` resolves with (`GeneratedImage`). Its fields are
      copied verbatim from the SDK's inline data, so they may be `undefined`. */
  datatype GeneratedImage = GeneratedImage(data: Option<string>, mimeType: Option<string>)

  const ApiKeyMissingMessage: string := "API_KEY environment variable is not set."
  const SafetyMessage: string :=
    "Thumbnail generation failed due to safety settings. Please try a different title or image."
  const NoImageMessage: string := "No image was generated. The AI may have returned text instead. "
  const FailurePrefix: string := "Failed to generate thumbnail. "

  /** `response.candidates?.[0]` */
  function FirstCandidate(resp: Response): (c: Option<Candidate>)
    ensures c.Some? <==> resp.candidates.Some? && |resp.candidates.value| > 0
    ensures c.Some? ==> c.value == resp.candidates.value[0]
  {
    match resp.candidates
    case Some(cs) => At(cs, 0)
    case None => None
  }

  /** `response.candidates?.[0]?.content?.parts` */
  function FirstCandidateParts(resp: Response): Option<seq<Part>> {
    match FirstCandidate(resp)
    case Some(Candidate(Some(Content(parts)), _)) => parts
    case _ => None
  }

  /** `part => part.inlineData`: an object is truthy whenever it is present. */
  predicate HasInlineData(part: Part) {
    part.inlineData.Some?
  }

  /** `part => part.text`: an empty text does not count. */
  predicate HasText(part: Part) {
    Truthy(part.text)
  }

  /** `...parts?.find(p)` on the first candidate's parts. */
  function FindInFirstCandidate(resp: Response, p: Part -> bool): Option<Part> {
    match FirstCandidateParts(resp)
    case Some(parts) => Find(parts, p)
    case None => None
  }

  /** The inner message of the error thrown when no image part exists: the safety
      message exactly when the first candidate finished for `'SAFETY'`, and otherwise
      the no-image sentence followed by the first non-empty text, if any. */
  function NoImageReason(resp: Response): (reason: string)
    ensures reason == SafetyMessage <==>
              FirstCandidate(resp).Some? && FirstCandidate(resp).value.finishReason == Some("SAFETY")
    ensures reason != SafetyMessage ==> StartsWith(reason, NoImageMessage)
  {
    if FirstCandidate(resp).Some? && FirstCandidate(resp).value.finishReason == Some("SAFETY") then
      SafetyMessage
    else
      var textPart := FindInFirstCandidate(resp, HasText);
      var reason := NoImageMessage + (if textPart.Some? then textPart.value.text.value else "");
      assert NoImageMessage[61] == '.' && SafetyMessage[61] == 'y';
      assert reason[61] == NoImageMessage[61];
      reason
  }

  /** The body of the `try` after the call: the first part with inline data wins;
      otherwise the safety or no-image message. */
  function Interpret(resp: Response): (r: Result<GeneratedImage, string>)
    ensures r.Success? <==>
              FirstCandidateParts(resp).Some? &&
              exists k :: 0 <= k < |FirstCandidateParts(resp).value| &&
                          FirstCandidateParts(resp).value[k].inlineData.Some?
    ensures r.Failure? ==> r.error == SafetyMessage || StartsWith(r.error, NoImageMessage)
  {
    var imagePart := FindInFirstCandidate(resp, HasInlineData);
    if imagePart.Some? && imagePart.value.inlineData.Some? then
      var blob := imagePart.value.inlineData.value;
      Success(GeneratedImage(blob.data, blob.mimeType))
    else
      Failure(NoImageReason(resp))
  }

  /** `error instanceof Error ? error.message : ''` */
  function MessageOf(t: Thrown): string {
    match t
    case ErrorObject(m) => m
    case NonError(_) => ""
  }

  /** One call of `generateThumbnail`: the request it sends (if any) and how it ends. */
  datatype Attempt = Attempt(sent: Option<Request>, result: Result<GeneratedImage, Thrown>)

  /** `generateThumbnail(title, headshotBase64, mimeType)` with the given API key
      and the given outcome of the service call. */
  function GenerateThumbnail(apiKey: Option<string>, title: string, data: Option<string>,
                             mimeType: Option<string>, reply: Reply): (a: Attempt)
    ensures !Truthy(apiKey) <==> a.sent.None?
    ensures !Truthy(apiKey) ==> a.result == Failure(ErrorObject(ApiKeyMissingMessage))
    ensures Truthy(apiKey) ==> a.sent == Some(BuildRequest(title, data, mimeType))
    ensures Truthy(apiKey) && a.result.Failure? ==>
              a.result.error.ErrorObject? && StartsWith(a.result.error.message, FailurePrefix)
  {
    if !Truthy(apiKey) then
      Attempt(None, Failure(ErrorObject(ApiKeyMissingMessage)))
    else
      var request := BuildRequest(title, data, mimeType);
      var inner: Result<GeneratedImage, string> :=
        match reply
        case CallThrew(t) => Failure(MessageOf(t))
        case Responded(resp) => Interpret(resp);
      match inner
      case Success(image) => Attempt(Some(request), Success(image))
      case Failure(message) => Attempt(Some(request), Failure(ErrorObject(FailurePrefix + message)))
  }

  // ---- Properties of the interpreter ----

  /** A success returns the inline data of the first part, in order, of the first
      candidate that carries inline data, verbatim. */
  lemma SuccessIsFirstInlinePart(resp: Response)
    requires Interpret(resp).Success?
    ensures FirstCandidateParts(resp).Some?
    ensures exists k :: 0 <= k < |FirstCandidateParts(resp).value| &&
              var part := FirstCandidateParts(resp).value[k];
              part.inlineData.Some? &&
              Interpret(resp).value == GeneratedImage(part.inlineData.value.data, part.inlineData.value.mimeType) &&
              forall j :: 0 <= j < k ==> FirstCandidateParts(resp).value[j].inlineData.None?
  {
  }

  /** If some part of the first candidate carries inline data, the call succeeds,
      whatever the finish reason and whatever the text parts say. */
  lemma InlinePartWins(resp: Response, k: nat)
    requires FirstCandidateParts(resp).Some? && k < |FirstCandidateParts(resp).value|
    requires FirstCandidateParts(resp).value[k].inlineData.Some?
    ensures Interpret(resp).Success?
  {
  }

  /** Only the first candidate is inspected. */
  lemma LaterCandidatesIgnored(c: Candidate, rest: seq<Candidate>)
    ensures Interpret(Response(Some([c] + rest))) == Interpret(Response(Some([c])))
  {
  }

  /** No candidates, a candidate without content, or content without parts all take
      the no-image path. */
  lemma MissingShapeMeansNoImage(resp: Response)
    requires FirstCandidateParts(resp).None?
    ensures Interpret(resp) == Failure(
              if FirstCandidate(resp).Some? && FirstCandidate(resp).value.finishReason == Some("SAFETY")
              then SafetyMessage else NoImageMessage)
  {
    assert NoImageMessage + "" == NoImageMessage;
  }

  /** Without an image, a `'SAFETY'` finish reason gives the fixed safety message,
      independent of any text part. */
  lemma SafetyMessageFixed(resp: Response)
    requires forall p :: FirstCandidateParts(resp).Some? && p in FirstCandidateParts(resp).value ==> p.inlineData.None?
    requires FirstCandidate(resp).Some? && FirstCandidate(resp).value.finishReason == Some("SAFETY")
    ensures Interpret(resp) == Failure(SafetyMessage)
  {
  }

  /** Without an image and without a safety finish, the message is the no-image
      sentence followed by the first non-empty text part, or by nothing. */
  lemma NoImageMessageCarriesFirstText(resp: Response)
    requires FirstCandidateParts(resp).Some?
    requires forall j :: 0 <= j < |FirstCandidateParts(resp).value| ==>
               FirstCandidateParts(resp).value[j].inlineData.None?
    requires FirstCandidate(resp).value.finishReason != Some("SAFETY")
    ensures Interpret(resp).Failure?
    ensures StartsWith(Interpret(resp).error, NoImageMessage)
    ensures (forall j :: 0 <= j < |FirstCandidateParts(resp).value| ==> !Truthy(FirstCandidateParts(resp).value[j].text))
              ==> Interpret(resp).error == NoImageMessage
    ensures forall k :: 0 <= k < |FirstCandidateParts(resp).value| &&
                        Truthy(FirstCandidateParts(resp).value[k].text) &&
                        (forall j :: 0 <= j < k ==> !Truthy(FirstCandidateParts(resp).value[j].text))
              ==> Interpret(resp).error == NoImageMessage + FirstCandidateParts(resp).value[k].text.value
  {
  }

  /** Every failure inside the `try` (thrown by the call, or the safety and no-image
      errors) surfaces as the generic prefix followed by the inner message. */
  lemma FailuresAreWrapped(apiKey: Option<string>, title: string, data: Option<string>,
                           mimeType: Option<string>, reply: Reply)
    requires Truthy(apiKey)
    ensures reply.CallThrew? ==>
              GenerateThumbnail(apiKey, title, data, mimeType, reply).result
                == Failure(ErrorObject(FailurePrefix + MessageOf(reply.thrown)))
    ensures reply.Responded? && Interpret(reply.response).Failure? ==>
              GenerateThumbnail(apiKey, title, data, mimeType, reply).result
                == Failure(ErrorObject(FailurePrefix + Interpret(reply.response).error))
    ensures reply.Responded? && Interpret(reply.response).Success? ==>
              GenerateThumbnail(apiKey, title, data, mimeType, reply).result
                == Success(Interpret(reply.response).value)
  {
  }

  /** A mocked service that answers with an inline image has its data and MIME type
      reproduced exactly. */
  lemma InlineImageRoundTrip(apiKey: Option<string>, title: string, data: Option<string>,
                             mimeType: Option<string>, blob: Blob, others: seq<Part>,
                             reason: Option<string>, more: seq<Candidate>)
    requires Truthy(apiKey)
    ensures var resp := Response(Some([Candidate(Some(Content(Some([Part(Some(blob), None)] + others))), reason)] + more));
            GenerateThumbnail(apiKey, title, data, mimeType, Responded(resp)).result
              == Success(GeneratedImage(blob.data, blob.mimeType))
  {
  }
}
