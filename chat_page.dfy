/**
 * The text chat of the main page (src/pages/Index.tsx): the conversation
 * state, the send cycle of `handleSendMessage`, the request it makes to the
 * Perplexity chat-completions endpoint, `handleKeyDown` and `saveApiKey`.
 *
 * The page's state hooks become the fields of `ChatState`. A send is split
 * where the code awaits the network: `BeginSend` runs the guards and the
 * updates before the request, `Settle` runs what follows it (the success
 * append or the catch, then the `finally`). The pending send carries the
 * `newMessages` list the code captured, which is what the success path
 * appends to.
 */
module ChatPage {
  import opened Wrappers
  import opened JsText

  datatype Role = User | Assistant

  datatype Message = Message(role: Role, content: string)

  // ---------------------------------------------------------------------------
  // The prompt around the farmer's text.

  const PromptHead := "You are an agricultural expert assistant. A farmer has shared the following description of their crop issue: \""

  /** The rest of the template, with the six-space indentation of its source lines. */
  const PromptTail := "\"\n      \n      Analyze this information and provide:\n      1. Possible disease identification\n      2. Detailed preventive measures\n      3. Treatment options (both organic and chemical if applicable)\n      4. Future precautions to avoid recurrence\n      \n      Format your response clearly with headings and bullet points where appropriate."

  /** The prompt quotes the farmer's text verbatim between the fixed head and tail. */
  function Prompt(userMessage: string): (r: string)
    ensures StartsWith(r, PromptHead)
    ensures |r| == |PromptHead| + |userMessage| + |PromptTail|
    ensures r[|PromptHead|..|PromptHead| + |userMessage|] == userMessage
    ensures r[|PromptHead| + |userMessage|..] == PromptTail
  {
    var r := PromptHead + userMessage + PromptTail;
    assert r[..|PromptHead|] == PromptHead;
    r
  }

  /** The farmer's text read back out of a prompt. */
  function QueryOfPrompt(prompt: string): (q: string)
    requires |prompt| >= |PromptHead| + |PromptTail|
  {
    prompt[|PromptHead|..|prompt| - |PromptTail|]
  }

  /** Reading the text back out of its prompt gives it unchanged, so different texts give different prompts. */
  lemma QueryOfPromptRoundTrip(userMessage: string)
    ensures QueryOfPrompt(Prompt(userMessage)) == userMessage
  {
  }

  lemma PromptInjective(a: string, b: string)
    requires Prompt(a) == Prompt(b)
    ensures a == b
  {
    QueryOfPromptRoundTrip(a);
    QueryOfPromptRoundTrip(b);
  }

  // ---------------------------------------------------------------------------
  // The Perplexity request.

  const ChatEndpoint := "https://api.perplexity.ai/chat/completions"
  const ChatModel := "llama-3.1-sonar-small-128k-online"
  const SystemInstruction := "You are an agricultural expert specializing in crop disease identification and management. Provide accurate, practical advice for farmers. Use simple language and give clear, actionable steps."

  datatype ChatTurn = ChatTurn(role: string, content: string)

  /** The POST request `fetchPerplexityResponse` sends: headers and the JSON body's fields. */
  datatype PerplexityRequest = PerplexityRequest(
    url: string,
    authorization: string,
    model: string,
    messages: seq<ChatTurn>,
    temperature: real,
    topP: real,
    maxTokens: int,
    returnImages: bool,
    returnRelatedQuestions: bool,
    searchDomainFilter: seq<string>,
    searchRecencyFilter: string,
    frequencyPenalty: int,
    presencePenalty: int)

  /**
   * The request for one message: a bearer header with the key, a system turn
   * with the fixed instruction followed by one user turn with the message,
   * and fixed sampling and search settings. Only the key and the message vary.
   */
  function BuildChatRequest(key: string, message: string): (r: PerplexityRequest)
    ensures r.url == ChatEndpoint && r.authorization == "Bearer " + key && r.model == ChatModel
    ensures r.messages == [ChatTurn("system", SystemInstruction), ChatTurn("user", message)]
    ensures r.temperature == 0.2 && r.topP == 0.9 && r.maxTokens == 1000
    ensures !r.returnImages && !r.returnRelatedQuestions
    ensures r.searchDomainFilter == ["perplexity.ai"] && r.searchRecencyFilter == "month"
    ensures r.frequencyPenalty == 1 && r.presencePenalty == 0
  {
    PerplexityRequest(ChatEndpoint, "Bearer " + key, ChatModel,
      [ChatTurn("system", SystemInstruction), ChatTurn("user", message)],
      0.2, 0.9, 1000, false, false, ["perplexity.ai"], "month", 1, 0)
  }

  /** Two requests for the same key differ exactly when the texts they were built from differ. */
  lemma RequestCarriesQuery(key: string, q1: string, q2: string)
    ensures BuildChatRequest(key, Prompt(q1)) == BuildChatRequest(key, Prompt(q2)) <==> q1 == q2
  {
    if BuildChatRequest(key, Prompt(q1)) == BuildChatRequest(key, Prompt(q2)) {
      assert BuildChatRequest(key, Prompt(q1)).messages[1].content == Prompt(q1);
      PromptInjective(q1, q2);
    }
  }

  // ---------------------------------------------------------------------------
  // What came back.

  const DefaultErrorMessage := "Failed to fetch response"

  /** The notice shown for every failed send; the error itself only goes to the console. */
  const FailureNotice := "Failed to get a response. Please check your API key and try again."

  /**
   * `errorData.message || "Failed to fetch response"`: the provider's message
   * when it has one (None stands for a missing or empty one), else the fixed
   * text. The error always says something.
   */
  function ErrorMessage(providerMessage: Option<string>): (r: string)
    ensures r != []
    ensures providerMessage.Some? && providerMessage.value != [] ==> r == providerMessage.value
    ensures providerMessage.None? || providerMessage.value == [] ==> r == DefaultErrorMessage
  {
    match providerMessage
    case Some(m) => if m != [] then m else DefaultErrorMessage
    case None => DefaultErrorMessage
  }

  /**
   * The exchange as the page sees it: `fetch` rejected; a non-OK response
   * whose JSON body has an optional `message`; a body that is not JSON or has
   * no `choices[0].message`; or an OK response with its content.
   */
  datatype PerplexityOutcome =
    | NetworkFailure
    | Rejected(providerMessage: Option<string>)
    | Unreadable
    | Answered(content: string)

  datatype FetchError = NetworkError | ProviderError(message: string) | MalformedReply

  datatype Reply = Answer(text: string) | Failure(error: FetchError)

  /** `fetchPerplexityResponse`: the reply text, or the error it throws. */
  function FetchResult(outcome: PerplexityOutcome): (r: Reply)
    ensures r.Answer? <==> outcome.Answered?
    ensures r.Answer? ==> r.text == outcome.content
    ensures outcome.Rejected? ==> r == Failure(ProviderError(ErrorMessage(outcome.providerMessage)))
  {
    match outcome
    case NetworkFailure => Failure(NetworkError)
    case Rejected(m) => Failure(ProviderError(ErrorMessage(m)))
    case Unreadable => Failure(MalformedReply)
    case Answered(text) => Answer(text)
  }

  // ---------------------------------------------------------------------------
  // The send cycle.

  /** `!apiKey` is false: a key is stored and it is not "". */
  predicate KeyPresent(apiKey: Option<string>) {
    apiKey.Some? && apiKey.value != []
  }

  /** What a send in flight holds: the history it appends to, and its request. */
  datatype Pending = Pending(history: seq<Message>, request: PerplexityRequest)

  datatype SendStart =
    | Ignored
    | KeyRequired
    | Started(pending: Pending)

  /**
   * The guards of `handleSendMessage` and what an accepted send records: blank
   * input is ignored, a missing key raises the key notice, and otherwise the
   * trimmed input becomes a user message appended to the history and the
   * text of the prompt the request carries.
   */
  function StartOf(messages: seq<Message>, input: string, apiKey: Option<string>): (r: SendStart)
    ensures r == Ignored <==> Blank(input)
    ensures r == KeyRequired <==> !Blank(input) && !KeyPresent(apiKey)
    ensures r.Started? ==> KeyPresent(apiKey)
    ensures r.Started? ==> r.pending.history == messages + [Message(User, Trim(input))]
    ensures r.Started? ==> r.pending.request == BuildChatRequest(apiKey.value, Prompt(Trim(input)))
  {
    if Blank(input) then Ignored
    else if !KeyPresent(apiKey) then KeyRequired
    else
      var userMessage := Trim(input);
      Started(Pending(messages + [Message(User, userMessage)], BuildChatRequest(apiKey.value, Prompt(userMessage))))
  }

  /** Every user message in the history has content, with no whitespace at either end. */
  predicate WellFormedHistory(messages: seq<Message>) {
    forall i :: 0 <= i < |messages| && messages[i].role == User ==> messages[i].content != [] && IsTrimmed(messages[i].content)
  }

  /** An accepted send appends a well-formed user message. */
  lemma StartKeepsHistoryWellFormed(messages: seq<Message>, input: string, apiKey: Option<string>)
    requires WellFormedHistory(messages)
    ensures StartOf(messages, input, apiKey).Started? ==> WellFormedHistory(StartOf(messages, input, apiKey).pending.history)
  {
  }

  /** What a reply adds to the conversation: the assistant's message, or nothing. */
  function Answers(reply: Reply): (r: seq<Message>)
    ensures reply.Answer? <==> r != []
    ensures reply.Answer? ==> r == [Message(Assistant, reply.text)]
  {
    if reply.Answer? then [Message(Assistant, reply.text)] else []
  }

  /** The state hooks of the page. */
  class ChatState {
    var messages: seq<Message>
    var input: string
    var isLoading: bool
    var apiKey: Option<string>

    ghost predicate Valid()
      reads this
    {
      WellFormedHistory(messages)
    }

    /** The page opens with no messages, empty input, not loading, and the stored key if any. */
    constructor(storedKey: Option<string>)
      ensures Valid()
      ensures messages == [] && input == [] && !isLoading && apiKey == storedKey
    {
      messages := [];
      input := [];
      isLoading := false;
      apiKey := storedKey;
    }

    /** Without a key the page shows the key form instead of the conversation; no send starts then. */
    predicate ShowsKeyForm()
      reads this
      ensures ShowsKeyForm() ==> !StartOf(messages, input, apiKey).Started?
    {
      !KeyPresent(apiKey)
    }

    /**
     * The send button's `disabled`: loading, or nothing but whitespace typed.
     * While not loading it is disabled exactly when a click would be ignored.
     */
    predicate SendDisabled()
      reads this
      ensures isLoading ==> SendDisabled()
      ensures !isLoading ==> (SendDisabled() <==> StartOf(messages, input, apiKey) == Ignored)
    {
      isLoading || Blank(input)
    }

    /** The text area's `onChange`. */
    method SetInput(value: string)
      modifies this
      ensures input == value
      ensures messages == old(messages) && isLoading == old(isLoading) && apiKey == old(apiKey)
    {
      input := value;
    }

    /** `saveApiKey`: the key is kept as given; persisting it and the notice are outside the model. */
    method SaveApiKey(key: string)
      modifies this
      ensures apiKey == Some(key)
      ensures messages == old(messages) && input == old(input) && isLoading == old(isLoading)
    {
      apiKey := Some(key);
    }

    /**
     * `handleSendMessage` up to the request. An ignored or refused send
     * changes nothing; an accepted one appends the user message, clears the
     * input and sets the loading flag.
     */
    method BeginSend() returns (start: SendStart)
      requires Valid()
      modifies this
      ensures Valid()
      ensures start == StartOf(old(messages), old(input), old(apiKey))
      ensures !start.Started? ==> messages == old(messages) && input == old(input) && isLoading == old(isLoading)
      ensures start.Started? ==> messages == start.pending.history && input == [] && isLoading
      ensures apiKey == old(apiKey)
    {
      StartKeepsHistoryWellFormed(messages, input, apiKey);
      start := StartOf(messages, input, apiKey);
      if start.Started? {
        input := [];
        messages := start.pending.history;
        isLoading := true;
      }
    }

    /**
     * `handleSendMessage` after the request: an answer is appended to the
     * history the send captured; a failure leaves the messages as they are
     * and raises the fixed failure notice, whatever the error was; either
     * way the loading flag is cleared.
     */
    method Settle(pending: Pending, reply: Reply) returns (notice: Option<string>)
      requires Valid() && WellFormedHistory(pending.history)
      modifies this
      ensures Valid()
      ensures notice == if reply.Failure? then Some(FailureNotice) else None
      ensures reply.Answer? ==> messages == pending.history + [Message(Assistant, reply.text)]
      ensures reply.Failure? ==> messages == old(messages)
      ensures !isLoading
      ensures input == old(input) && apiKey == old(apiKey)
    {
      if reply.Answer? {
        messages := pending.history + [Message(Assistant, reply.text)];
        notice := None;
      } else {
        notice := Some(FailureNotice);
      }
      isLoading := false;
    }

    /**
     * One whole send with the exchange as a parameter. It ends not loading;
     * an accepted send leaves the old history, the user message and, on an
     * answer, the assistant message, in that order.
     */
    method HandleSendMessage(exchange: PerplexityRequest -> PerplexityOutcome) returns (start: SendStart)
      requires Valid()
      modifies this
      ensures Valid()
      ensures start == StartOf(old(messages), old(input), old(apiKey))
      ensures !start.Started? ==> messages == old(messages) && input == old(input) && isLoading == old(isLoading)
      ensures start.Started? ==> input == [] && !isLoading
      ensures start.Started? ==>
        messages == old(messages) + [Message(User, Trim(old(input)))] + Answers(FetchResult(exchange(start.pending.request)))
      ensures apiKey == old(apiKey)
    {
      start := BeginSend();
      if start.Started? {
        var reply := FetchResult(exchange(start.pending.request));
        var _ := Settle(start.pending, reply);
      }
    }

    /**
     * `handleKeyDown`: Enter without Shift starts a send, whatever the loading
     * flag; any other key changes nothing.
     */
    method HandleKeyDown(key: string, shiftKey: bool) returns (triggered: bool, start: SendStart)
      requires Valid()
      modifies this
      ensures Valid()
      ensures triggered <==> key == "Enter" && !shiftKey
      ensures start == if triggered then StartOf(old(messages), old(input), old(apiKey)) else Ignored
      ensures !start.Started? ==> messages == old(messages) && input == old(input) && isLoading == old(isLoading)
      ensures start.Started? ==> messages == start.pending.history && input == [] && isLoading
      ensures apiKey == old(apiKey)
    {
      triggered := key == "Enter" && !shiftKey;
      if triggered {
        start := BeginSend();
      } else {
        start := Ignored;
      }
    }
  }

  /** No send is started while the key form is shown. */
  lemma KeyFormBlocksSend(messages: seq<Message>, input: string, apiKey: Option<string>)
    requires !KeyPresent(apiKey)
    ensures !StartOf(messages, input, apiKey).Started?
  {
  }
}
