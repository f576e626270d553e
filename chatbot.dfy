/**
 * The chat widget of the frontend: a list of chat bubbles, the text being
 * typed, a loading flag and an open/closed flag, changed by four events
 * (toggle, send, reply received, request failed).
 *
 * The HTTP round trip is split into the send and one of its two
 * continuations, each taken as one atomic step. The markdown renderer is an
 * opaque function given to the reply step; `None` stands for a renderer that
 * throws, which rejects the continuation before anything is pushed.
 */
module Chatbot {
  import opened JsRuntime
  import QueryHandler

  datatype Sender = User | Bot

  /** `{text, sender, isHtml?}`; the failure bubble carries no `isHtml` at all. */
  datatype ChatMessage = ChatMessage(text: string, sender: Sender, isHtml: Option<bool>)

  const ApologyText := "I'm sorry, I couldn't process your request."
  const FailureText := "Something went wrong. Please try again."

  // ---------------------------------------------------------------------------
  // Reply normalisation
  // ---------------------------------------------------------------------------

  /** `s` is `"` + `t` + `"` where `t` has no line terminator: what `/^"(.*)"$/` matches. */
  predicate MatchesQuotedLine(s: string) {
    && |s| >= 2 && s[0] == '"' && s[|s| - 1] == '"'
    && forall i :: 0 <= i < |s| ==> !IsLineTerminator(s[i])
  }

  /** `s.replace(/^"(.*)"$/, '$1')`. */
  function StripQuotes(s: string): (r: string)
    ensures r != s <==> MatchesQuotedLine(s)
    ensures r != s ==> s == "\"" + r + "\""
  {
    if MatchesQuotedLine(s) then s[1..|s| - 1] else s
  }

  /** Quoting a single line and stripping it gives the line back. */
  lemma StripQuotesOfQuotedLine(t: string)
    requires forall i :: 0 <= i < |t| ==> !IsLineTerminator(t[i])
    ensures StripQuotes("\"" + t + "\"") == t
  {
    var s := "\"" + t + "\"";
    assert forall i :: 1 <= i < |s| - 1 ==> s[i] == t[i - 1];
    assert s[1..|s| - 1] == t;
  }

  /** A quoted reply that spans two lines keeps its quotes: the `.` of the pattern stops at a line break. */
  lemma QuotedMultiLineReplyKeepsQuotes(a: string, b: string)
    ensures StripQuotes("\"" + a + "\n" + b + "\"") == "\"" + a + "\n" + b + "\""
  {
    var s := "\"" + a + "\n" + b + "\"";
    assert s[|a| + 1] == '\n';
  }

  /** `res?.result?.response`: the reply field of the response body, if any. */
  function ResponseField(res: Json): Option<Json> {
    Get(Get(Some(res), "result"), "response")
  }

  /** `res?.result?.response || "I'm sorry, ..."`: a JSON value, not necessarily a string. */
  function BotReply(res: Json): (r: Json)
    ensures Truthy(r)
    ensures ResponseField(res).Some? && Truthy(ResponseField(res).value) ==> r == ResponseField(res).value
    ensures ResponseField(res).None? || !Truthy(ResponseField(res).value) ==> r == JStr(ApologyText)
  {
    var v := ResponseField(res);
    if v.Some? && Truthy(v.value) then v.value else JStr(ApologyText)
  }

  /** The reply after the fallback and the quote stripping. */
  function NormaliseReply(res: Json): (r: Json)
    ensures ResponseField(res).None? || !Truthy(ResponseField(res).value) ==> r == JStr(ApologyText)
    ensures forall s :: ResponseField(res) == Some(JStr(s)) && s != [] ==> r == JStr(StripQuotes(s))
    ensures ResponseField(res).Some? && Truthy(ResponseField(res).value) && !ResponseField(res).value.JStr? ==>
              r == ResponseField(res).value
  {
    assert !MatchesQuotedLine(ApologyText);
    var reply := BotReply(res);
    if reply.JStr? then JStr(StripQuotes(reply.s)) else reply
  }

  /** `{result}` as the backend's `/ai-query` route sends it. */
  function ApiBody(result: QueryHandler.HandlerResult): (body: Json)
    ensures result.Response? ==> ResponseField(body) == Some(JStr(result.response))
    ensures !result.Response? ==> ResponseField(body).None?
    ensures Get(Some(body), "result").Some?
  {
    var payload := match result
      case Error(f) => JObj(map["error" := JStr(QueryHandler.ErrorText(f))])
      case Message(m) => JObj(map["message" := JStr(m)])
      case Response(t) => JObj(map["response" := JStr(t)]);
    JObj(map["result" := payload])
  }

  /**
   * Only `{response}` results reach the user as they are: every `{error}` and the
   * "No matching records found" `{message}` are shown as the same apology.
   */
  lemma OnlyResponsesReachTheUser(result: QueryHandler.HandlerResult)
    ensures !result.Response? ==> NormaliseReply(ApiBody(result)) == JStr(ApologyText)
    ensures result.Response? && result.response != [] ==>
              NormaliseReply(ApiBody(result)) == JStr(StripQuotes(result.response))
  {
    assert !MatchesQuotedLine(ApologyText);
  }

  // ---------------------------------------------------------------------------
  // The component
  // ---------------------------------------------------------------------------

  class ChatbotComponent {
    var isOpen: bool
    var messages: seq<ChatMessage>
    var userMessage: string
    var loading: bool

    constructor ()
      ensures !isOpen && messages == [] && userMessage == [] && !loading
    {
      isOpen := false;
      messages := [];
      userMessage := [];
      loading := false;
    }

    /** `toggleChat`: opens a closed widget and closes an open one. */
    method ToggleChat()
      modifies this
      ensures isOpen == !old(isOpen)
      ensures messages == old(messages) && userMessage == old(userMessage) && loading == old(loading)
    {
      isOpen := !isOpen;
    }

    /**
     * `sendMessage` up to the HTTP call. A blank input changes nothing and
     * sends nothing; otherwise the untrimmed input is appended as a user
     * bubble, posted as `userQuery`, and the input box is cleared.
     */
    method SendMessage() returns (request: Option<string>)
      modifies this
      ensures IsBlank(old(userMessage)) ==>
                request == None && messages == old(messages) && userMessage == old(userMessage)
                && loading == old(loading)
      ensures !IsBlank(old(userMessage)) ==>
                && request == Some(old(userMessage))
                && messages == old(messages) + [ChatMessage(old(userMessage), User, Some(false))]
                && userMessage == [] && loading
      ensures isOpen == old(isOpen)
    {
      TrimEmptyIffBlank(userMessage);
      if Trim(userMessage) == [] {
        request := None;
        return;
      }
      loading := true;
      var userMsg := userMessage;
      messages := messages + [ChatMessage(userMsg, User, Some(false))];
      userMessage := [];
      request := Some(userMsg);
    }

    /** The success continuation: one HTML bot bubble with the rendered reply, and loading ends. */
    method OnResponse(res: Json, marked: Json -> Option<string>)
      modifies this
      ensures var html := marked(NormaliseReply(res));
              if html.Some? then
                messages == old(messages) + [ChatMessage(html.value, Bot, Some(true))] && !loading
              else
                messages == old(messages) && loading == old(loading)
      ensures isOpen == old(isOpen) && userMessage == old(userMessage)
    {
      var botReply := NormaliseReply(res);
      var formatted := marked(botReply);
      if formatted.None? {
        return;
      }
      messages := messages + [ChatMessage(formatted.value, Bot, Some(true))];
      loading := false;
    }

    /** The failure continuation: the fixed failure bubble, and loading ends. */
    method OnError()
      modifies this
      ensures messages == old(messages) + [ChatMessage(FailureText, Bot, None)]
      ensures !loading
      ensures isOpen == old(isOpen) && userMessage == old(userMessage)
    {
      messages := messages + [ChatMessage(FailureText, Bot, None)];
      loading := false;
    }
  }

  /** Toggling twice restores the open flag and touches nothing else. */
  method ToggleTwice(c: ChatbotComponent)
    modifies c
    ensures c.isOpen == old(c.isOpen)
    ensures c.messages == old(c.messages) && c.userMessage == old(c.userMessage) && c.loading == old(c.loading)
  {
    c.ToggleChat();
    c.ToggleChat();
  }

  /**
   * A send followed by the failure continuation only appends: the bubbles that
   * were there stay where they were, the user bubble and then the failure
   * bubble follow, and loading ends.
   */
  method SendThenFail(c: ChatbotComponent)
    modifies c
    ensures old(c.messages) <= c.messages
    ensures !IsBlank(old(c.userMessage)) ==>
              c.messages == old(c.messages) + [ChatMessage(old(c.userMessage), User, Some(false)),
                                               ChatMessage(FailureText, Bot, None)]
              && !c.loading && c.userMessage == []
  {
    var request := c.SendMessage();
    if request.Some? {
      c.OnError();
    }
  }

  /**
   * A send followed by the reply continuation only appends: the user bubble,
   * then the rendered reply; loading ends once the renderer returns.
   */
  method SendThenRespond(c: ChatbotComponent, res: Json, marked: Json -> Option<string>)
    modifies c
    ensures old(c.messages) <= c.messages
    ensures !IsBlank(old(c.userMessage)) && marked(NormaliseReply(res)).Some? ==>
              c.messages == old(c.messages) + [ChatMessage(old(c.userMessage), User, Some(false)),
                                               ChatMessage(marked(NormaliseReply(res)).value, Bot, Some(true))]
              && !c.loading && c.userMessage == []
  {
    var request := c.SendMessage();
    if request.Some? {
      c.OnResponse(res, marked);
    }
  }
}
