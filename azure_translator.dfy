/** `AzureOpenAITranslator` (`providers/azure_translator.py`): the short-text passthrough,
    the chat messages, the wrapping of service failures, the confidence read from the
    finish reason, the supported language pairs and the connection probe. The chat
    service is an oracle; no field changes after construction, so the translator is a
    value. */
module AzureTranslation {
  import opened Wrappers
  import opened Text
  import opened Errors

  /** `LanguageCode`. */
  datatype Language = English | Japanese

  function Code(l: Language): string {
    match l
    case English => "en"
    case Japanese => "ja"
  }

  /** `TranslationRequest`, with the fields `translate` reads. */
  datatype Request = Request(text: string, source: Language, target: Language, context: Option<string>)

  datatype ChatMessage = ChatMessage(role: string, content: string)

  /** The `finish_reason` attribute of the first choice: missing, or present with a
      value that may be `None`. */
  datatype FinishReason = Absent | Present(reason: Option<string>)

  /** What `translate` reads from a chat completion: the first choice's content, its
      `finish_reason` and the token usage (`None` when absent). */
  datatype ChatReply = ChatReply(content: Option<string>, finishReason: FinishReason, totalTokens: Option<nat>)

  /** The chat service: a reply, or the text of the exception it raised. */
  type ChatService = seq<ChatMessage> -> Result<ChatReply, string>

  datatype Metadata = Metadata(model: string, tokensUsed: nat, finishReason: Option<string>)

  /** `TranslationResponse`; `metadata` is `None` for the empty dict of the short-text
      path. */
  datatype Response = Response(
    translatedText: string,
    originalText: string,
    source: Language,
    target: Language,
    confidenceScore: real,
    metadata: Option<Metadata>,
    processingTime: real)

  /** The translator: whether `_initialize_client` produced a client, the configured
      model and the CVE system prompt. */
  datatype AzureTranslator = AzureTranslator(hasClient: bool, modelName: string, systemPrompt: string)

  /** Stripped texts shorter than this are echoed. */
  const MinimumLength: nat := 3

  /** The message list: the system prompt, then the context when it is non-empty, then
      the user's text. */
  function Messages(t: AzureTranslator, r: Request): seq<ChatMessage> {
    var prompt := ChatMessage("system", t.systemPrompt);
    var user := ChatMessage("user", r.text);
    if r.context.Some? && r.context.value != [] then
      [prompt, ChatMessage("system", "Additional context: " + r.context.value), user]
    else [prompt, user]
  }

  /** The system prompt comes first and the user's text last; a context sits between
      them exactly when it is non-empty. */
  lemma MessageOrder(t: AzureTranslator, r: Request)
    ensures var m := Messages(t, r);
      && (|m| == 3 <==> r.context.Some? && r.context.value != [])
      && (|m| == 2 || |m| == 3)
      && m[0] == ChatMessage("system", t.systemPrompt)
      && m[|m| - 1] == ChatMessage("user", r.text)
      && (|m| == 3 ==> m[1] == ChatMessage("system", "Additional context: " + r.context.value))
  {
  }

  /** The `except` branch of `translate`: rate limit is recognised before authentication
      in the lower-cased message. */
  function ClassifyFailure(msg: string): Error {
    var lower := Lower(msg);
    if Contains(lower, "rate limit") then
      Error(TranslationServiceError, "Rate limit exceeded: " + msg, Some("RATE_LIMIT_EXCEEDED"))
    else if Contains(lower, "authentication") then
      Error(AuthenticationError, "Authentication failed: " + msg, Some("AZURE_AUTH_FAILED"))
    else
      Error(TranslationServiceError, "Translation failed: " + msg, Some("TRANSLATION_FAILED"))
  }

  /** The classification: a rate limit is a `TranslationServiceError` with its own code,
      so a caller reading only the class name cannot tell it from any other failure; an
      `AuthenticationError` needs "authentication" and no "rate limit". */
  lemma FailureClasses(msg: string)
    ensures var e := ClassifyFailure(msg);
      && e.kind != RateLimitError && ClassName(e.kind) != "RateLimitError"
      && (e.code == Some("RATE_LIMIT_EXCEEDED") <==> Contains(Lower(msg), "rate limit"))
      && (e.kind == AuthenticationError <==>
            !Contains(Lower(msg), "rate limit") && Contains(Lower(msg), "authentication"))
      && (e.kind != AuthenticationError ==> e.kind == TranslationServiceError)
      && (e.code == Some("TRANSLATION_FAILED") <==>
            !Contains(Lower(msg), "rate limit") && !Contains(Lower(msg), "authentication"))
  {
    var e := ClassifyFailure(msg);
    assert ClassName(e.kind) != "RateLimitError" by {
      if e.kind == AuthenticationError {
        assert ClassName(e.kind)[0] != "RateLimitError"[0];
      } else {
        assert ClassName(e.kind)[0] != "RateLimitError"[0];
      }
    }
  }

  /** The text of the exception raised inside the `try` for an empty reply. */
  const EmptyResponse: string := "Empty response from Azure OpenAI"

  /** The text of the `AttributeError` raised when the metadata reads a missing
      `finish_reason`. */
  const MissingFinishReason: string := ChoicePart + AttributePart + NamePart

  const ChoicePart: string := "'Choice' object "
  const AttributePart: string := "has no attribute "
  const NamePart: string := "'finish_reason'"

  /** `_calculate_confidence`: a present `None` compares unequal to both strings. */
  function CalculateConfidence(finishReason: FinishReason): real {
    match finishReason
    case Absent => 0.8
    case Present(reason) =>
      if reason == Some("stop") then 0.95 else if reason == Some("length") then 0.7 else 0.5
  }

  /** The confidence is one of four values: 0.95 for a completed reply, 0.7 for one cut
      at the token limit, 0.8 when the attribute is missing and 0.5 for any other
      present reason, `None` included. */
  lemma ConfidenceLevels(finishReason: FinishReason)
    ensures var c := CalculateConfidence(finishReason);
      && 0.5 <= c <= 0.95
      && (c == 0.95 <==> finishReason == Present(Some("stop")))
      && (c == 0.7 <==> finishReason == Present(Some("length")))
      && (c == 0.8 <==> finishReason.Absent?)
      && (c == 0.5 <==> finishReason.Present? && finishReason.reason != Some("stop")
                          && finishReason.reason != Some("length"))
  {
  }

  /** `translate`, with `elapsed` the measured duration. */
  function Translate(t: AzureTranslator, r: Request, service: ChatService, elapsed: real): Result<Response, Error> {
    if !t.hasClient then Err(Error(TranslationServiceError, "Client not initialized", None))
    else if |Strip(r.text)| < MinimumLength then Ok(Response(r.text, r.text, r.source, r.target, 1.0, None, 0.0))
    else
      match service(Messages(t, r))
      case Err(msg) => Err(ClassifyFailure(msg))
      case Ok(reply) =>
        if reply.content.None? || reply.content.value == [] then Err(ClassifyFailure(EmptyResponse))
        else if reply.finishReason.Absent? then Err(ClassifyFailure(MissingFinishReason))
        else
          var tokens := if reply.totalTokens.Some? then reply.totalTokens.value else 0;
          Ok(Response(Strip(reply.content.value), r.text, r.source, r.target,
                      CalculateConfidence(reply.finishReason),
                      Some(Metadata(t.modelName, tokens, reply.finishReason.reason)), elapsed))
  }

  /** Without a client `translate` fails; a short text is echoed with confidence 1.0
      whatever the service would answer; otherwise it succeeds exactly when the service
      replies with content and a `finish_reason` attribute, giving the stripped reply;
      an empty reply, and a reply whose choice lacks the attribute, is a
      `TRANSLATION_FAILED` service error. */
  lemma TranslateOutcomes(t: AzureTranslator, r: Request, service: ChatService, other: ChatService, elapsed: real)
    ensures !t.hasClient ==>
      Translate(t, r, service, elapsed).Err? && Translate(t, r, service, elapsed).error.kind == TranslationServiceError
    ensures t.hasClient && |Strip(r.text)| < MinimumLength ==>
      && Translate(t, r, service, elapsed) == Translate(t, r, other, elapsed)
      && Translate(t, r, service, elapsed).Ok?
      && Translate(t, r, service, elapsed).value.translatedText == r.text
      && Translate(t, r, service, elapsed).value.confidenceScore == 1.0
    ensures t.hasClient && |Strip(r.text)| >= MinimumLength ==>
      var reply := service(Messages(t, r));
      && (Translate(t, r, service, elapsed).Ok? <==>
            && reply.Ok? && reply.value.content.Some? && reply.value.content.value != []
            && reply.value.finishReason.Present?)
      && (Translate(t, r, service, elapsed).Ok? ==>
            && Translate(t, r, service, elapsed).value.translatedText == Strip(reply.value.content.value)
            && Translate(t, r, service, elapsed).value.originalText == r.text
            && Translate(t, r, service, elapsed).value.confidenceScore
                 == CalculateConfidence(reply.value.finishReason)
            && Translate(t, r, service, elapsed).value.metadata.Some?
            && Translate(t, r, service, elapsed).value.metadata.value.finishReason
                 == reply.value.finishReason.reason)
      && (reply.Err? ==> Translate(t, r, service, elapsed) == Err(ClassifyFailure(reply.error)))
      && (reply.Ok? && (reply.value.content.None? || reply.value.content == Some([])) ==>
            Translate(t, r, service, elapsed)
              == Err(Error(TranslationServiceError, "Translation failed: " + EmptyResponse,
                           Some("TRANSLATION_FAILED"))))
      && (reply.Ok? && reply.value.content.Some? && reply.value.content.value != []
          && reply.value.finishReason.Absent? ==>
            Translate(t, r, service, elapsed)
              == Err(Error(TranslationServiceError, "Translation failed: " + MissingFinishReason,
                           Some("TRANSLATION_FAILED"))))
  {
    EmptyReplyIsTranslationFailure();
    MissingFinishReasonIsTranslationFailure();
  }

  /** The empty-reply exception mentions neither a rate limit nor authentication. */
  lemma EmptyReplyIsTranslationFailure()
    ensures ClassifyFailure(EmptyResponse)
      == Error(TranslationServiceError, "Translation failed: " + EmptyResponse, Some("TRANSLATION_FAILED"))
  {
    var lower := Lower(EmptyResponse);
    forall k | 0 <= k < |lower| ensures lower[k] != 'l' && lower[k] != 'h' {
      assert lower[k] == LowerChar(EmptyResponse[k]);
    }
    MissingCharNotContained(lower, "rate limit", 5);
    MissingCharNotContained(lower, "authentication", 3);
  }

  /** The `AttributeError` mentions neither a rate limit nor authentication: it has no
      letter l, and no "a" followed by "u". */
  lemma MissingFinishReasonIsTranslationFailure()
    ensures ClassifyFailure(MissingFinishReason)
      == Error(TranslationServiceError, "Translation failed: " + MissingFinishReason, Some("TRANSLATION_FAILED"))
  {
    MissingFinishReasonLetters();
  }

  /** Neither phrase the classification looks for occurs in the lower-cased
      `AttributeError` text. */
  lemma MissingFinishReasonLetters()
    ensures !Contains(Lower(MissingFinishReason), "rate limit")
    ensures !Contains(Lower(MissingFinishReason), "authentication")
  {
    LowerParts();
    PhrasesAbsent(ChoicePart, AttributePart, NamePart);
  }

  /** `s` has no letter l. */
  predicate WithoutL(s: string) {
    forall k :: 0 <= k < |s| ==> s[k] != 'l'
  }

  /** `s` has no "a" followed by "u". */
  predicate WithoutAU(s: string) {
    forall k :: 0 <= k < |s| - 1 ==> !(s[k] == 'a' && s[k + 1] == 'u')
  }

  /** Three texts whose lower-cased forms have no l and no "au", the first two ending in
      something other than "a", join into a text with neither phrase. */
  lemma PhrasesAbsent(x: string, y: string, z: string)
    requires WithoutL(Lower(x)) && WithoutL(Lower(y)) && WithoutL(Lower(z))
    requires WithoutAU(Lower(x)) && WithoutAU(Lower(y)) && WithoutAU(Lower(z))
    requires |x| > 0 && Lower(x)[|x| - 1] != 'a' && |y| > 0 && Lower(y)[|y| - 1] != 'a'
    ensures !Contains(Lower(x + y + z), "rate limit")
    ensures !Contains(Lower(x + y + z), "authentication")
  {
    var a, b, c := Lower(x), Lower(y), Lower(z);
    LowerConcat(x, y);
    LowerConcat(x + y, z);
    var lower := Lower(x + y + z);
    assert lower == a + b + c;
    forall k | 0 <= k < |lower| ensures lower[k] != 'l' {
      if k < |a| {
        assert lower[k] == a[k];
      } else if k < |a| + |b| {
        assert lower[k] == b[k - |a|];
      } else {
        assert lower[k] == c[k - |a| - |b|];
      }
    }
    forall k | 0 <= k < |lower| - 1 ensures !(lower[k] == 'a' && lower[k + 1] == 'u') {
      if k + 1 < |a| {
        assert lower[k] == a[k] && lower[k + 1] == a[k + 1];
      } else if k + 1 == |a| {
        assert lower[k] == a[|a| - 1];
      } else if k + 1 < |a| + |b| {
        assert lower[k] == b[k - |a|] && lower[k + 1] == b[k + 1 - |a|];
      } else if k + 1 == |a| + |b| {
        assert lower[k] == b[|b| - 1];
      } else {
        assert lower[k] == c[k - |a| - |b|] && lower[k + 1] == c[k + 1 - |a| - |b|];
      }
    }
    MissingCharNotContained(lower, "rate limit", 5);
    MissingPairNotContained(lower, "authentication", 0);
  }

  /** Lower-casing works character by character. */
  lemma LowerConcat(s: string, t: string)
    ensures Lower(s + t) == Lower(s) + Lower(t)
  {
    assert forall k | 0 <= k < |s + t| :: Lower(s + t)[k] == (Lower(s) + Lower(t))[k];
  }

  /** The three parts of the `AttributeError` text meet the conditions of
      `PhrasesAbsent`. */
  lemma LowerParts()
    ensures WithoutL(Lower(ChoicePart)) && WithoutL(Lower(AttributePart)) && WithoutL(Lower(NamePart))
    ensures WithoutAU(Lower(ChoicePart)) && WithoutAU(Lower(AttributePart)) && WithoutAU(Lower(NamePart))
    ensures Lower(ChoicePart)[|ChoicePart| - 1] == ' ' && Lower(AttributePart)[|AttributePart| - 1] == ' '
  {
    var a, b, c := Lower(ChoicePart), Lower(AttributePart), Lower(NamePart);
    forall k | 0 <= k < |a| ensures a[k] != 'l' && a[k] != 'a' {
      assert a[k] == LowerChar(ChoicePart[k]);
    }
    forall k | 0 <= k < |b| ensures b[k] == AttributePart[k] {
      assert b[k] == LowerChar(AttributePart[k]);
    }
    assert forall k | 0 <= k < |b| :: b[k] != 'l' && (b[k] == 'a' ==> k == 1 || k == 7);
    forall k | 0 <= k < |c| ensures c[k] == NamePart[k] {
      assert c[k] == LowerChar(NamePart[k]);
    }
    assert forall k | 0 <= k < |c| :: c[k] != 'l' && (c[k] == 'a' ==> k == 10);
  }

  /** A word with two adjacent letters that never sit side by side in `s` does not occur
      in `s`. */
  lemma MissingPairNotContained(s: string, w: string, q: nat)
    requires q + 1 < |w|
    requires forall k :: 0 <= k < |s| - 1 ==> !(s[k] == w[q] && s[k + 1] == w[q + 1])
    ensures !Contains(s, w)
  {
    forall k: nat | k <= |s| ensures !At(s, w, k) {
      if k + |w| <= |s| {
        assert s[k..k + |w|][q] == s[k + q];
        assert s[k..k + |w|][q + 1] == s[k + q + 1];
      }
    }
  }

  /** `supports_language_pair`. */
  function SupportsLanguagePair(source: string, target: string): bool {
    (source, target) == ("en", "ja") || (source, target) == ("ja", "en")
  }

  /** The supported pairs are English to Japanese and back, and nothing else: the
      relation is symmetric and never holds for one language with itself. */
  lemma LanguagePairs(source: string, target: string)
    ensures SupportsLanguagePair(source, target) <==> SupportsLanguagePair(target, source)
    ensures SupportsLanguagePair(source, target) ==> source != target
    ensures SupportsLanguagePair(Code(English), Code(Japanese)) && SupportsLanguagePair(Code(Japanese), Code(English))
  {
  }

  /** The dict `test_connection` returns. */
  datatype ConnectionTest =
    | Connected(model: string, responseTime: real)
    | Unreachable(error: string, errorType: string)

  /** `test_connection`: a translation of "Test connection" from English to Japanese. */
  function TestConnection(t: AzureTranslator, service: ChatService, elapsed: real): ConnectionTest {
    match Translate(t, Request("Test connection", English, Japanese, None), service, elapsed)
    case Ok(response) => Connected(t.modelName, response.processingTime)
    case Err(e) => Unreachable(e.message, ClassName(e.kind))
  }

  /** The probe never raises: it reports success with the configured model exactly when a
      translation of its text succeeds, and otherwise the failure's message and class
      name. */
  lemma TestConnectionReports(t: AzureTranslator, service: ChatService, elapsed: real)
    ensures var probe := Request("Test connection", English, Japanese, None);
      var result := Translate(t, probe, service, elapsed);
      && (TestConnection(t, service, elapsed).Connected? <==> result.Ok?)
      && (result.Ok? ==> TestConnection(t, service, elapsed) == Connected(t.modelName, elapsed))
      && (result.Err? ==> TestConnection(t, service, elapsed)
                            == Unreachable(result.error.message, ClassName(result.error.kind)))
  {
    var text := "Test connection";
    assert !IsSpace(text[0]) && !IsSpace(text[|text| - 1]);
    StripFacts(text);
  }
}
