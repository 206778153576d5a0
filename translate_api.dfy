/** The translation proxy (`handler` in api/translate.js): method and field
    checks, the language-name mapping for the prompt, the defaulting of the
    translation, and the error path. */
module TranslateApi {
  import opened Wrappers
  import opened Strings
  import opened Proxy
  import opened Records

  datatype TranslateBody = TranslateBody(text: Option<string>, targetLang: Option<string>)

  datatype TranslateRequest = TranslateRequest(httpMethod: string, body: Option<TranslateBody>)

  datatype TranslateResponse =
    | Preflight
    | MethodNotAllowed
    | MissingFields
    | Translated(translation: string, originalLang: Lang, targetLang: string)
    | TranslationFailed
  {
    function Status(): int {
      match this
      case Preflight => 200
      case MethodNotAllowed => 405
      case MissingFields => 400
      case Translated(_, _, _) => 200
      case TranslationFailed => 500
    }
  }

  /** `langNames[code] || code`: the name the prompt uses for a language. */
  function LanguageName(code: string): (name: string)
    ensures LangOfCode(code).None? ==> name == code
  {
    if code == "en" then "English"
    else if code == "si" then "Sinhala (සිංහල)"
    else if code == "ta" then "Tamil (தமிழ்)"
    else code
  }

  /** `handler(req, res)`. `provider(text, languageName)` is the service's
      reply to the prompt that asks for `text` in `languageName`. */
  function HandleTranslate(req: TranslateRequest, provider: (string, string) -> ProviderReply): (resp: TranslateResponse)
    ensures resp.Status() == 200 <==> req.httpMethod == "OPTIONS" || resp.Translated?
    ensures resp == Preflight <==> req.httpMethod == "OPTIONS"
    ensures resp == MethodNotAllowed <==> req.httpMethod != "OPTIONS" && req.httpMethod != "POST"
    ensures resp == MissingFields <==>
              && req.httpMethod == "POST" && req.body.Some?
              && (!IsTruthy(req.body.value.text) || !IsTruthy(req.body.value.targetLang))
    ensures resp.Translated? ==>
              && req.httpMethod == "POST" && req.body.Some?
              && var b := req.body.value;
                 && IsTruthy(b.text) && IsTruthy(b.targetLang)
                 && var reply := provider(b.text.value, LanguageName(b.targetLang.value));
                    && reply.ProviderReplied?
                    && resp.translation == Trim(if HasText(reply) then reply.candidate.value else b.text.value, JavaScript)
                    && resp.originalLang == DetectLanguage(b.text.value)
                    && resp.targetLang == b.targetLang.value
    ensures resp == TranslationFailed <==>
              req.httpMethod == "POST" &&
              (req.body.None?
               || (IsTruthy(req.body.value.text) && IsTruthy(req.body.value.targetLang)
                   && provider(req.body.value.text.value, LanguageName(req.body.value.targetLang.value)).ProviderFailed?))
  {
    if req.httpMethod == "OPTIONS" then Preflight
    else if req.httpMethod != "POST" then MethodNotAllowed
    else if req.body.None? then TranslationFailed
    else
      var b := req.body.value;
      if !IsTruthy(b.text) || !IsTruthy(b.targetLang) then MissingFields
      else
        var text := b.text.value;
        var reply := provider(text, LanguageName(b.targetLang.value));
        if reply.ProviderFailed? then TranslationFailed
        else
          var translated := if reply.candidate.Some? && reply.candidate.value != "" then reply.candidate.value else text;
          Translated(Trim(translated, JavaScript), DetectLanguage(text), b.targetLang.value)
  }
}
