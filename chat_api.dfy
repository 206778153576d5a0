/** The chat proxy (`handler` in api/chat.js): it checks the HTTP method
    and the request fields, picks the reply language, builds the message
    list for the text-generation service and turns its reply, or its
    failure, into the response. */
module ChatApi {
  import opened Wrappers
  import opened Strings
  import opened Proxy

  /** One earlier turn of the conversation, as the widget sends it. */
  datatype Turn = Turn(role: string, content: string)

  /** The JSON body fields the handler reads; `None` is an absent field. */
  datatype ChatBody = ChatBody(message: Option<string>, language: Option<string>, history: Option<seq<Turn>>)

  /** An HTTP request; `body` is `None` when the request has none. */
  datatype ChatRequest = ChatRequest(httpMethod: string, body: Option<ChatBody>)

  datatype Role = User | Model

  /** The text of one message to the service. The system prompt and the
      greetings are fixed texts, represented by what selects them. */
  datatype Part = SystemPrompt(responseLang: string) | Greeting(lang: Lang) | Text(text: string)

  datatype Message = Message(role: Role, part: Part)

  /** The handler's answer. `Preflight` is 200 with no body. */
  datatype ChatResponse =
    | Preflight
    | MethodNotAllowed
    | MissingMessage
    | Answer(response: string, language: string)
    | Apology(lang: Lang)
  {
    function Status(): int {
      match this
      case Preflight => 200
      case MethodNotAllowed => 405
      case MissingMessage => 400
      case Answer(_, _) => 200
      case Apology(_) => 500
    }
  }

  /** The greeting that opens the conversation: Sinhala or Tamil when the
      reply language is that code, English for any other code. */
  function GreetingLang(responseLang: string): Lang {
    if responseLang == "si" then Si else if responseLang == "ta" then Ta else En
  }

  /** The role a history turn is sent with: only "user" stays the user. */
  function RoleOf(t: Turn): Role {
    if t.role == "user" then User else Model
  }

  /** The apology of the error path, looked up by the language as sent
      (`fallbacks[req.body?.language]`), English when that is not a code. */
  function ApologyLang(language: Option<string>): Lang {
    if language.Some? && LangOfCode(language.value).Some? then LangOfCode(language.value).value else En
  }

  /** The message list for `message`: the system prompt sent as the user,
      the greeting as the model, one message per history turn, then the
      current message, in that order. */
  method BuildMessages(message: string, responseLang: string, history: seq<Turn>) returns (messages: seq<Message>)
    ensures |messages| == |history| + 3
    ensures messages[0] == Message(User, SystemPrompt(responseLang))
    ensures messages[1] == Message(Model, Greeting(GreetingLang(responseLang)))
    ensures forall k :: 0 <= k < |history| ==> messages[k + 2] == Message(RoleOf(history[k]), Text(history[k].content))
    ensures messages[|messages| - 1] == Message(User, Text(message))
  {
    var greeting := if responseLang == "si" then Si else if responseLang == "ta" then Ta else En;
    messages := [Message(User, SystemPrompt(responseLang)), Message(Model, Greeting(greeting))];
    var i := 0;
    while i < |history|
      invariant 0 <= i <= |history|
      invariant |messages| == i + 2
      invariant messages[0] == Message(User, SystemPrompt(responseLang))
      invariant messages[1] == Message(Model, Greeting(GreetingLang(responseLang)))
      invariant forall k :: 0 <= k < i ==> messages[k + 2] == Message(RoleOf(history[k]), Text(history[k].content))
    {
      var msg := history[i];
      messages := messages + [Message(if msg.role == "user" then User else Model, Text(msg.content))];
      i := i + 1;
    }
    messages := messages + [Message(User, Text(message))];
  }

  /** The reply language: the script of the message when it is Sinhala or
      Tamil, otherwise the language the user picked. */
  function ResponseLang(message: string, language: string): (r: string)
    ensures DetectLanguage(message) == En ==> r == language
    ensures DetectLanguage(message) != En ==> r == DetectLanguage(message).Code()
  {
    var detected := DetectLanguage(message);
    if detected != En then detected.Code() else language
  }

  /** `handler(req, res)`. `provider` is the service: its reply to the
      messages sent. */
  method HandleChat(req: ChatRequest, provider: seq<Message> -> ProviderReply) returns (resp: ChatResponse)
    ensures req.httpMethod == "OPTIONS" ==> resp == Preflight
    ensures req.httpMethod != "OPTIONS" && req.httpMethod != "POST" ==> resp == MethodNotAllowed
    ensures req.httpMethod == "POST" && req.body.None? ==> resp == Apology(En)
    ensures resp == MissingMessage <==>
              req.httpMethod == "POST" && req.body.Some? && (req.body.value.message.None? || req.body.value.message.value == "")
    ensures resp.Answer? ==>
              && req.httpMethod == "POST" && req.body.Some?
              && var b := req.body.value;
                 var language := b.language.GetOr("en");
                 && b.message.Some? && b.message.value != ""
                 && resp.language == language
                 && var reply := provider(Conversation(b.message.value, ResponseLang(b.message.value, language), b.history.GetOr([])));
                    HasText(reply) && resp.response == Trim(reply.candidate.value, JavaScript)
    ensures req.httpMethod == "POST" && req.body.Some? && req.body.value.message.Some? && req.body.value.message.value != "" ==>
              var b := req.body.value;
              var language := b.language.GetOr("en");
              var reply := provider(Conversation(b.message.value, ResponseLang(b.message.value, language), b.history.GetOr([])));
              resp == if HasText(reply) then Answer(Trim(reply.candidate.value, JavaScript), language)
                      else Apology(ApologyLang(b.language))
  {
    if req.httpMethod == "OPTIONS" {
      return Preflight;
    }
    if req.httpMethod != "POST" {
      return MethodNotAllowed;
    }
    if req.body.None? {
      // Destructuring a missing body throws; the catch finds no language.
      return Apology(En);
    }
    var b := req.body.value;
    var language := b.language.GetOr("en");
    var history := b.history.GetOr([]);
    if b.message.None? || b.message.value == "" {
      return MissingMessage;
    }
    var message := b.message.value;
    var responseLang := ResponseLang(message, language);
    var messages := BuildMessages(message, responseLang, history);
    ConversationIsBuilt(message, responseLang, history, messages);
    var reply := provider(messages);
    if reply.ProviderFailed? {
      return Apology(ApologyLang(b.language));
    }
    if reply.candidate.None? || reply.candidate.value == "" {
      return Apology(ApologyLang(b.language));
    }
    resp := Answer(Trim(reply.candidate.value, JavaScript), language);
  }

  /** The message list `BuildMessages` sends, as a value. */
  function Conversation(message: string, responseLang: string, history: seq<Turn>): seq<Message> {
    [Message(User, SystemPrompt(responseLang)), Message(Model, Greeting(GreetingLang(responseLang)))]
    + seq(|history|, k requires 0 <= k < |history| => Message(RoleOf(history[k]), Text(history[k].content)))
    + [Message(User, Text(message))]
  }

  /** Any list with the shape `BuildMessages` promises is that value. */
  lemma ConversationIsBuilt(message: string, responseLang: string, history: seq<Turn>, messages: seq<Message>)
    requires |messages| == |history| + 3
    requires messages[0] == Message(User, SystemPrompt(responseLang))
    requires messages[1] == Message(Model, Greeting(GreetingLang(responseLang)))
    requires forall k :: 0 <= k < |history| ==> messages[k + 2] == Message(RoleOf(history[k]), Text(history[k].content))
    requires messages[|messages| - 1] == Message(User, Text(message))
    ensures messages == Conversation(message, responseLang, history)
  {
    var c := Conversation(message, responseLang, history);
    forall k | 0 <= k < |messages| ensures messages[k] == c[k] {
      if 2 <= k < |history| + 2 {
        assert c[k] == Message(RoleOf(history[k - 2]), Text(history[k - 2].content));
      }
    }
  }
}
