/** The image-generation endpoint of the server: the call to the upstream
    image service, reduced to the shape of its answer, and the POST handler
    that turns a request body into a status code and a JSON payload. */
module ImageApi {
  import opened Wrappers
  import opened Text

  const MissingKeyError: string := "OPENAI_API_KEY is not set"
  const UpstreamFailedError: string := "OpenAI image generation failed"
  const NoImageError: string := "OpenAI did not return an image URL or base64 image"
  const DataUrlPrefix: string := "data:image/png;base64,"
  const DefaultModel: string := "gpt-image-1"
  const ImageSize: string := "1024x1024"
  const InvalidJsonError: string := "Invalid JSON body"
  const PromptRequiredError: string := "Prompt is required"

  /** A value that is present and not the empty string, which is what a JS
      truthiness test accepts for an optional string. */
  predicate Truthy(v: Option<string>) {
    v.Some? && v.value != ""
  }

  /** What was sent upstream: the model, the prompt and the image size. */
  datatype GenerationRequest = GenerationRequest(model: string, prompt: JsString, size: string)

  /** The upstream's answer as far as `generateImage` looks at it. A fetch
      that fails and a body that is not JSON both make the call reject; a
      JSON answer contributes its `ok` flag, `error.message`, and the `url`
      and `b64_json` of `data[0]`, each absent when missing. */
  datatype Upstream =
    | NetworkFailure
    | NonJsonBody
    | JsonReply(ok: bool, errorMessage: Option<string>, url: Option<string>, b64: Option<string>)

  /** The settled value of `generateImage`: an image URL, an error, or a
      rejection of the returned promise. */
  datatype Generated =
    | Generated(imageUrl: string)
    | GenerationError(error: string)
    | GenerationRejected

  /** `process.env.OPENAI_IMAGE_MODEL || "gpt-image-1"`. */
  function ModelName(configured: Option<string>): (m: string)
    ensures m != ""
    ensures Truthy(configured) ==> m == configured.value
    ensures !Truthy(configured) ==> m == DefaultModel
  {
    if Truthy(configured) then configured.value else DefaultModel
  }

  /** `generateImage(prompt)` for a given API key and upstream answer. */
  function GenerateImage(apiKey: Option<string>, upstream: Upstream): (r: Generated)
    ensures r.GenerationError? ==> r.error != ""
    ensures r.Generated? ==> r.imageUrl != ""
  {
    if !Truthy(apiKey) then GenerationError(MissingKeyError)
    else match upstream
      case NetworkFailure => GenerationRejected
      case NonJsonBody => GenerationRejected
      case JsonReply(ok, message, url, b64) =>
        if !ok then GenerationError(if Truthy(message) then message.value else UpstreamFailedError)
        else if Truthy(url) then Generated(url.value)
        else if Truthy(b64) then Generated(DataUrlPrefix + b64.value)
        else GenerationError(NoImageError)
  }

  /** An image comes back exactly when a key is configured and the upstream
      answered `ok` with a URL or base64 data; the promise rejects exactly
      when a key is configured and the upstream did not answer with JSON;
      without a key the answer does not depend on the upstream at all. */
  lemma GenerateImageOutcomes(apiKey: Option<string>, upstream: Upstream, other: Upstream)
    ensures GenerateImage(apiKey, upstream).Generated? <==>
              Truthy(apiKey) && upstream.JsonReply? && upstream.ok && (Truthy(upstream.url) || Truthy(upstream.b64))
    ensures GenerateImage(apiKey, upstream).GenerationRejected? <==>
              Truthy(apiKey) && !upstream.JsonReply?
    ensures !Truthy(apiKey) ==>
              GenerateImage(apiKey, upstream) == GenerateImage(apiKey, other) == GenerationError(MissingKeyError)
  {
  }

  /** A failed upstream call reports the upstream's own message when it has
      one and the generic failure otherwise, whatever image data came along. */
  lemma UpstreamErrorReported(apiKey: Option<string>, message: Option<string>, url: Option<string>, b64: Option<string>)
    requires Truthy(apiKey)
    ensures var r := GenerateImage(apiKey, JsonReply(false, message, url, b64));
            r.GenerationError? && (Truthy(message) ==> r.error == message.value)
            && (!Truthy(message) ==> r.error == UpstreamFailedError)
  {
  }

  /** Once the reply is ok its error message plays no part: a URL is
      preferred over base64 data, base64 data alone becomes a PNG data URL
      from which the data can be read back, and a reply with neither is the
      no-image error. */
  lemma ImageUrlChoice(apiKey: Option<string>, m: Option<string>, url: Option<string>, b64: Option<string>)
    requires Truthy(apiKey)
    ensures Truthy(url) ==> GenerateImage(apiKey, JsonReply(true, m, url, b64)) == Generated(url.value)
    ensures !Truthy(url) && Truthy(b64) ==>
              var r := GenerateImage(apiKey, JsonReply(true, m, url, b64));
              r.Generated? && r.imageUrl[..|DataUrlPrefix|] == DataUrlPrefix
              && r.imageUrl[|DataUrlPrefix|..] == b64.value
    ensures !Truthy(url) && !Truthy(b64) ==>
              GenerateImage(apiKey, JsonReply(true, m, url, b64)) == GenerationError(NoImageError)
  {
  }

  /** The result of `JSON.parse(body || "{}")`: a parse failure, `null`, or
      any other value, of which only a string-valued `prompt` property
      matters (an empty body parses as `{}`, which has none). */
  datatype JsonBody =
    | Malformed
    | JsonNull
    | JsonValue(prompt: Option<JsString>)

  /** The trimmed prompt when the body has a string prompt that is not
      blank. */
  function UsablePrompt(body: JsonBody): Option<JsString> {
    if body.JsonValue? && body.prompt.Some? && Trim(body.prompt.value) != [] then Some(Trim(body.prompt.value))
    else None
  }

  /** A usable prompt is the body's prompt trimmed: non-empty, with no
      whitespace at either end; there is none exactly when the body is
      malformed, `null`, lacks a string prompt, or its prompt is all
      whitespace. */
  lemma UsablePromptIsTrimmed(body: JsonBody)
    ensures UsablePrompt(body).Some? ==>
              body.JsonValue? && body.prompt.Some? && UsablePrompt(body).value == Trim(body.prompt.value)
    ensures UsablePrompt(body).Some? ==>
              var q := UsablePrompt(body).value;
              q != [] && !IsWhitespace(q[0]) && !IsWhitespace(q[|q| - 1])
    ensures UsablePrompt(body).None? <==>
              !body.JsonValue? || body.prompt.None? || AllWhitespace(body.prompt.value)
  {
    if body.JsonValue? && body.prompt.Some? {
      TrimEmptyIffAllWhitespace(body.prompt.value);
    }
  }

  /** The request the handler sends upstream, if any: only for a usable
      prompt and a configured key, carrying the trimmed prompt. */
  function OutgoingRequest(body: JsonBody, apiKey: Option<string>, configuredModel: Option<string>): Option<GenerationRequest> {
    if body.JsonValue? && UsablePrompt(body).Some? && Truthy(apiKey)
    then Some(GenerationRequest(ModelName(configuredModel), UsablePrompt(body).value, ImageSize))
    else None
  }

  /** A request goes upstream exactly when the body has a usable prompt and
      a key is configured, and it carries the configured model (or the
      default), the trimmed prompt and the fixed size. */
  lemma OutgoingRequestContents(body: JsonBody, apiKey: Option<string>, configuredModel: Option<string>)
    ensures OutgoingRequest(body, apiKey, configuredModel).Some? <==>
              body.JsonValue? && body.prompt.Some? && !AllWhitespace(body.prompt.value) && Truthy(apiKey)
    ensures OutgoingRequest(body, apiKey, configuredModel).Some? ==>
              var q := OutgoingRequest(body, apiKey, configuredModel).value;
              && q.prompt == Trim(body.prompt.value)
              && q.model == (if Truthy(configuredModel) then configuredModel.value else DefaultModel)
              && q.size == "1024x1024"
  {
    UsablePromptIsTrimmed(body);
  }

  /** The JSON payload of a response. */
  datatype Payload = ErrorPayload(error: string) | ImagePayload(imageUrl: string)

  datatype Response = Response(status: nat, payload: Payload)

  /** The POST `/api/generate-image` handler, as written: a rejection of
      `generateImage` lands in the same `catch` as a JSON parse failure. */
  function HandleGenerateImage(body: JsonBody, apiKey: Option<string>, upstream: Upstream): Response {
    if body.Malformed? || body.JsonNull? then Response(400, ErrorPayload(InvalidJsonError))
    else if UsablePrompt(body).None? then Response(400, ErrorPayload(PromptRequiredError))
    else match GenerateImage(apiKey, upstream)
      case GenerationRejected => Response(400, ErrorPayload(InvalidJsonError))
      case GenerationError(e) => Response(502, ErrorPayload(e))
      case Generated(u) => Response(200, ImagePayload(u))
  }

  /** The handler answers 200 with the image URL exactly when an image was
      generated for a usable prompt, 502 with the generation error exactly
      when generation reported one, and 400 otherwise, with `Invalid JSON
      body` for a malformed or `null` body and for a rejected upstream call
      and `Prompt is required` for a body without a usable prompt; without a
      usable prompt the answer does not depend on the key or the upstream,
      and whenever no request goes upstream it does not depend on the
      upstream. */
  lemma HandlerOutcomes(body: JsonBody, apiKey: Option<string>, upstream: Upstream,
                        otherKey: Option<string>, otherUpstream: Upstream, configuredModel: Option<string>)
    ensures var r := HandleGenerateImage(body, apiKey, upstream);
            var g := GenerateImage(apiKey, upstream);
            && (r.status == 200 <==> UsablePrompt(body).Some? && g.Generated?)
            && (r.status == 200 ==> r.payload == ImagePayload(g.imageUrl))
            && (r.status == 502 <==> UsablePrompt(body).Some? && g.GenerationError?)
            && (r.status == 502 ==> r.payload == ErrorPayload(g.error))
            && (r.status != 200 && r.status != 502 ==> r.status == 400 && r.payload.ErrorPayload?)
            && (r.status == 400 ==>
                  r.payload == ErrorPayload(if body.JsonValue? && UsablePrompt(body).None?
                                            then PromptRequiredError else InvalidJsonError))
    ensures UsablePrompt(body).None? ==>
              && OutgoingRequest(body, apiKey, configuredModel).None?
              && HandleGenerateImage(body, apiKey, upstream) == HandleGenerateImage(body, otherKey, otherUpstream)
    ensures OutgoingRequest(body, apiKey, configuredModel).None? ==>
              HandleGenerateImage(body, apiKey, upstream) == HandleGenerateImage(body, apiKey, otherUpstream)
  {
  }

  /** An upstream network failure for a perfectly good request is reported
      to the client as 400 "Invalid JSON body". */
  lemma UpstreamFailureReadsAsInvalidJson(body: JsonBody, apiKey: Option<string>)
    requires body == JsonValue(Some([99, 97, 116]))
    requires apiKey == Some("key")
    ensures UsablePrompt(body).Some?
    ensures HandleGenerateImage(body, apiKey, NetworkFailure) == Response(400, ErrorPayload(InvalidJsonError))
  {
    var cat := body.prompt.value;
    assert cat[0] == 99 && !IsWhitespace(cat[0]);
    TrimEmptyIffAllWhitespace(cat);
  }

  /** The handler with the upstream rejection reported as a gateway error
      (502, generic failure message), which is what its `catch` message shows
      was meant to cover only JSON parse failures. */
  function HandleGenerateImageCorrected(body: JsonBody, apiKey: Option<string>, upstream: Upstream): Response {
    if body.Malformed? || body.JsonNull? then Response(400, ErrorPayload(InvalidJsonError))
    else if UsablePrompt(body).None? then Response(400, ErrorPayload(PromptRequiredError))
    else match GenerateImage(apiKey, upstream)
      case GenerationRejected => Response(502, ErrorPayload(UpstreamFailedError))
      case GenerationError(e) => Response(502, ErrorPayload(e))
      case Generated(u) => Response(200, ImagePayload(u))
  }

  /** In the corrected handler a 400 means the client is at fault (no
      usable prompt) and nothing else, and a rejected upstream call is a 502
      with the generic failure message where the handler as written answers
      400 `Invalid JSON body`; the two differ only when the upstream call
      rejects. */
  lemma CorrectedBlamesClientOnlyForBadPrompts(body: JsonBody, apiKey: Option<string>, upstream: Upstream)
    ensures HandleGenerateImageCorrected(body, apiKey, upstream).status == 400 <==> UsablePrompt(body).None?
    ensures HandleGenerateImageCorrected(body, apiKey, upstream).status == 200 <==>
              HandleGenerateImage(body, apiKey, upstream).status == 200
    ensures HandleGenerateImageCorrected(body, apiKey, upstream) != HandleGenerateImage(body, apiKey, upstream) <==>
              UsablePrompt(body).Some? && GenerateImage(apiKey, upstream).GenerationRejected?
    ensures UsablePrompt(body).Some? && GenerateImage(apiKey, upstream).GenerationRejected? ==>
              && HandleGenerateImageCorrected(body, apiKey, upstream) == Response(502, ErrorPayload(UpstreamFailedError))
              && HandleGenerateImage(body, apiKey, upstream) == Response(400, ErrorPayload(InvalidJsonError))
  {
    var g := GenerateImage(apiKey, upstream);
    if UsablePrompt(body).Some? {
      assert body.JsonValue?;
      match g
      case GenerationRejected =>
        assert HandleGenerateImage(body, apiKey, upstream).status == 400;
      case GenerationError(e) =>
      case Generated(u) =>
    }
  }
}
