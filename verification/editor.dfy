/**
  One chat turn of the editor: the send guard, the user message, the request
  to the completion gateway and the single assistant message the turn ends
  with. The gateway's answer and the conversation store's answers are
  parameters; the turn yields the final state and the list of calls it made
  to the outside, in order.
 */
module Editor {
  import opened Wrappers
  import Decimal

  datatype Role = User | Assistant | System

  datatype Message = Message(role: Role, content: string)

  /** The identifier the conversation store hands out (a JavaScript number). */
  type ConversationId = int

  /** The transient entry shown while the request is pending. */
  const Placeholder: Message := Message(Assistant, "Thinking...")

  const InvalidResponseText: string :=
    "Sorry, I received an invalid response from the server. Please try again."
  const UnexpectedFormatText: string :=
    "I received an unexpected response format. Please try again or contact support."
  const SendErrorText: string :=
    "Sorry, there was an error sending your message. Please try again."

  const HttpErrorOpening: string := "I'm sorry, but there was an error communicating with the AI ("
  const HttpErrorClosing: string := "). Please try again."

  /** The reply to a response whose `ok` flag is false: the fixed opening,
      the status as a decimal numeral, and the fixed closing. */
  function HttpErrorText(status: nat): (r: string)
    ensures |r| > |HttpErrorOpening| + |HttpErrorClosing|
    ensures r[..|HttpErrorOpening|] == HttpErrorOpening
    ensures r[|r| - |HttpErrorClosing|..] == HttpErrorClosing
    ensures var digits := r[|HttpErrorOpening|..|r| - |HttpErrorClosing|];
      Decimal.IsNumeral(digits) && Decimal.Value(digits) == status
  {
    var digits := Decimal.Render(status);
    var r := HttpErrorOpening + digits + HttpErrorClosing;
    assert r[|HttpErrorOpening|..|r| - |HttpErrorClosing|] == digits;
    Decimal.ValueOfRender(status);
    r
  }

  /** One entry of the response's `choices`; `content` is `None` when the
      entry has no message or the message has no content. */
  datatype Choice = Choice(content: Option<string>)

  /** What the gateway call comes to: a response that is not ok, a body that
      is not JSON, a parsed body (`choices` absent is `None`), or an exception
      from the call itself. */
  datatype Outcome =
    | HttpError(status: nat)
    | ParseError
    | Ok(choices: Option<seq<Choice>>)
    | NetworkError

  /** The conversation store's answers during the turn: the identifier
      `createConversation` returns (`None` when it throws), and whether saving
      the assistant reply completes without throwing. */
  datatype Store = Store(createdId: Option<ConversationId>, replySaved: bool)

  /** A call made to the outside during the turn. */
  datatype Effect =
    | CreateConversation(title: string)
    | SaveMessage(message: Message)
    | Request(messages: seq<Message>)

  datatype ChatState = ChatState(
    transcript: seq<Message>,
    input: string,
    loading: bool,
    conversation: Option<ConversationId>)

  datatype Turn = Turn(state: ChatState, effects: seq<Effect>)

  // ---------------------------------------------------------------------
  // The guard: `content.trim()`

  /** ECMAScript WhiteSpace and LineTerminator code points, which
      `String.prototype.trim` removes. */
  predicate IsWhitespace(c: char) {
    || c == '\t' || c == '\n' || c == '\U{000B}' || c == '\U{000C}' || c == '\r' || c == ' '
    || c == '\U{00A0}' || c == '\U{1680}' || ('\U{2000}' <= c <= '\U{200A}')
    || c == '\U{2028}' || c == '\U{2029}' || c == '\U{202F}' || c == '\U{205F}'
    || c == '\U{3000}' || c == '\U{FEFF}'
  }

  predicate Blank(s: string) {
    forall i :: 0 <= i < |s| ==> IsWhitespace(s[i])
  }

  function TrimStart(s: string): (r: string)
    ensures r == [] <==> Blank(s)
    ensures r != [] ==> !IsWhitespace(r[0])
    ensures |r| <= |s| && r == s[|s| - |r|..]
  {
    if s != [] && IsWhitespace(s[0]) then
      var r := TrimStart(s[1..]);
      assert s[1..][|s| - 1 - |r|..] == s[|s| - |r|..];
      r
    else s
  }

  function TrimEnd(s: string): (r: string)
    ensures r == [] <==> Blank(s)
    ensures r != [] ==> !IsWhitespace(r[|r| - 1])
    ensures |r| <= |s| && r == s[..|r|]
  {
    if s != [] && IsWhitespace(s[|s| - 1]) then
      var r := TrimEnd(s[..|s| - 1]);
      assert s[..|s| - 1][..|r|] == s[..|r|];
      r
    else s
  }

  /** `String.prototype.trim`. */
  function Trim(s: string): (r: string)
    ensures r == [] <==> Blank(s)
    ensures r != [] ==> !IsWhitespace(r[0]) && !IsWhitespace(r[|r| - 1])
  {
    var t := TrimStart(s);
    assert t != [] ==> !Blank(t);
    TrimEnd(t)
  }

  /** JavaScript truthiness of `number | null`: null and 0 are false. */
  predicate Truthy(id: Option<ConversationId>) {
    id.Some? && id.value != 0
  }

  /** The title of a conversation created for the turn: the first 30
      characters, with "..." when the message is longer. */
  function DefaultTitle(content: string): (r: string)
    ensures |r| <= 33
    ensures |content| <= 30 ==> r == content
    ensures |content| > 30 ==> |r| == 33 && r[..30] == content[..30] && r[30..] == "..."
  {
    if |content| > 30 then content[..30] + "..." else content
  }

  predicate NoSystem(messages: seq<Message>) {
    forall k :: 0 <= k < |messages| ==> messages[k].role != System
  }

  /** `messagesForAPI`: the system prompt, then the history. */
  function ApiMessages(systemPrompt: string, history: seq<Message>): (r: seq<Message>)
    ensures |r| == |history| + 1
    ensures r[0] == Message(System, systemPrompt) && r[1..] == history
    ensures NoSystem(history) ==> forall k :: 0 < k < |r| ==> r[k].role != System
  {
    [Message(System, systemPrompt)] + history
  }

  /** `data.choices[0].message?.content || ''`. */
  function FirstChoiceText(choices: seq<Choice>): (r: string)
    requires |choices| > 0
    ensures choices[0].content.Some? ==> r == choices[0].content.value
    ensures choices[0].content.None? ==> r == ""
  {
    choices[0].content.GetOr("")
  }

  predicate HasChoices(outcome: Outcome) {
    outcome.Ok? && outcome.choices.Some? && |outcome.choices.value| > 0
  }

  /** The content of the assistant message the turn ends with. Saving the
      reply sits inside the request's `try`, so when it throws the catch
      replaces the reply with the send error. */
  function ReplyText(outcome: Outcome, conversation: Option<ConversationId>, store: Store): (r: string)
    ensures HasChoices(outcome) && (!Truthy(conversation) || store.replySaved) ==>
      r == FirstChoiceText(outcome.choices.value)
    ensures !(HasChoices(outcome) && (!Truthy(conversation) || store.replySaved)) ==>
      r != [] && r != Placeholder.content
  {
    ServerErrorTextNotPlaceholder(outcome);
    assert |SendErrorText| != |Placeholder.content|;
    assert |InvalidResponseText| != |Placeholder.content|;
    assert |UnexpectedFormatText| != |Placeholder.content|;
    match outcome
    case HttpError(status) => HttpErrorText(status)
    case ParseError => InvalidResponseText
    case NetworkError => SendErrorText
    case Ok(choices) =>
      if choices.Some? && |choices.value| > 0 then
        if Truthy(conversation) && !store.replySaved then SendErrorText
        else FirstChoiceText(choices.value)
      else UnexpectedFormatText
  }

  /** The conversation set-up before the request: a conversation is created
      when none is current, and the user message is saved when an identifier
      is at hand. */
  function SetupEffects(input: string, conversation: Option<ConversationId>, store: Store): (r: seq<Effect>)
    ensures 1 <= |r| <= 2
    ensures forall k :: 0 <= k < |r| ==> !r[k].Request? && !IsReplySave(r[k])
    ensures CreateConversation(DefaultTitle(input)) in r <==> !Truthy(conversation)
    ensures !Truthy(conversation) ==> r[0] == CreateConversation(DefaultTitle(input))
    ensures SaveMessage(Message(User, input)) in r <==> Truthy(conversation) || Truthy(store.createdId)
  {
    if Truthy(conversation) then [SaveMessage(Message(User, input))]
    else
      [CreateConversation(DefaultTitle(input))]
        + (if Truthy(store.createdId) then [SaveMessage(Message(User, input))] else [])
  }

  /** The reply is saved only under the conversation that was current when
      the turn began. */
  function ReplyEffects(outcome: Outcome, conversation: Option<ConversationId>): (r: seq<Effect>)
    ensures |r| <= 1
    ensures r != [] <==> HasChoices(outcome) && Truthy(conversation)
    ensures forall k :: 0 <= k < |r| ==>
      r[k] == SaveMessage(Message(Assistant, FirstChoiceText(outcome.choices.value)))
  {
    if HasChoices(outcome) && Truthy(conversation) then
      [SaveMessage(Message(Assistant, FirstChoiceText(outcome.choices.value)))]
    else []
  }

  /** The gateway requests among the calls made. */
  function Requests(effects: seq<Effect>): seq<seq<Message>> {
    if effects == [] then []
    else (if effects[0].Request? then [effects[0].messages] else []) + Requests(effects[1..])
  }

  lemma {:induction false} RequestsAppend(a: seq<Effect>, b: seq<Effect>)
    ensures Requests(a + b) == Requests(a) + Requests(b)
  {
    if a == [] {
      assert a + b == b;
    } else {
      assert (a + b)[0] == a[0] && (a + b)[1..] == a[1..] + b;
      RequestsAppend(a[1..], b);
    }
  }

  lemma {:induction false} NoRequests(effects: seq<Effect>)
    requires forall k :: 0 <= k < |effects| ==> !effects[k].Request?
    ensures Requests(effects) == []
  {
    if effects != [] {
      NoRequests(effects[1..]);
    }
  }

  /** The calls a non-blank turn makes: set-up, the one request, and the
      reply's save. */
  function TurnEffects(s: ChatState, systemPrompt: string, outcome: Outcome, store: Store): (r: seq<Effect>)
    ensures Requests(r) == [ApiMessages(systemPrompt, s.transcript + [Message(User, s.input)])]
    ensures CreateConversation(DefaultTitle(s.input)) in r <==> !Truthy(s.conversation)
    ensures SaveMessage(Message(User, s.input)) in r <==> Truthy(s.conversation) || Truthy(store.createdId)
    ensures SavesReply(r) <==> Truthy(s.conversation) && HasChoices(outcome)
  {
    var setup := SetupEffects(s.input, s.conversation, store);
    var request := ApiMessages(systemPrompt, s.transcript + [Message(User, s.input)]);
    var after := ReplyEffects(outcome, s.conversation);
    var r := setup + [Request(request)] + after;
    NoRequests(setup);
    NoRequests(after);
    RequestsAppend(setup, [Request(request)]);
    RequestsAppend(setup + [Request(request)], after);
    assert Requests([Request(request)]) == [request];
    assert CreateConversation(DefaultTitle(s.input)) !in after;
    assert SaveMessage(Message(User, s.input)) !in after;
    assert after != [] ==> IsReplySave(r[|setup| + 1]);
    assert forall k :: 0 <= k < |r| && IsReplySave(r[k]) ==> k > |setup|;
    r
  }

  /** The transcript a non-blank turn settles on: the user message, then one
      assistant message. */
  function TurnTranscript(s: ChatState, outcome: Outcome, store: Store): (r: seq<Message>)
    ensures |r| == |s.transcript| + 2
    ensures r[..|s.transcript|] == s.transcript
    ensures r[|s.transcript|] == Message(User, s.input)
    ensures r[|s.transcript| + 1].role == Assistant
    ensures NoSystem(s.transcript) ==> NoSystem(r)
  {
    var r := s.transcript + [Message(User, s.input), Message(Assistant, ReplyText(outcome, s.conversation, store))];
    assert r[..|s.transcript|] == s.transcript;
    r
  }

  /** `handleChatSend`, from the state it is called in to the state after
      the turn has settled. */
  function HandleChatSend(s: ChatState, systemPrompt: string, outcome: Outcome, store: Store): (t: Turn)
    ensures Blank(s.input) ==> t == Turn(s, [])
    ensures !Blank(s.input) ==>
      && |t.state.transcript| == |s.transcript| + 2
      && t.state.transcript[..|s.transcript|] == s.transcript
      && t.state.transcript[|s.transcript|] == Message(User, s.input)
      && t.state.transcript[|s.transcript| + 1].role == Assistant
      && t.state.input == ""
      && !t.state.loading
      && t.state.conversation == s.conversation
      && Requests(t.effects) == [ApiMessages(systemPrompt, s.transcript + [Message(User, s.input)])]
    ensures !Blank(s.input) ==> t.effects == TurnEffects(s, systemPrompt, outcome, store)
    ensures NoSystem(s.transcript) ==> NoSystem(t.state.transcript)
  {
    if Trim(s.input) == [] then Turn(s, [])
    else
      Turn(ChatState(TurnTranscript(s, outcome, store), "", false, s.conversation),
           TurnEffects(s, systemPrompt, outcome, store))
  }

  /** The Enter key and the send button: nothing happens while a request is
      pending or the input is blank. */
  function Submit(s: ChatState, systemPrompt: string, outcome: Outcome, store: Store): (t: Turn)
    ensures s.loading ==> t == Turn(s, [])
    ensures !s.loading ==> t == HandleChatSend(s, systemPrompt, outcome, store)
  {
    if !s.loading && Trim(s.input) != [] then HandleChatSend(s, systemPrompt, outcome, store)
    else Turn(s, [])
  }

  // ---------------------------------------------------------------------
  // The final assistant message, outcome by outcome

  function Last(t: Turn): Message
    requires |t.state.transcript| > 0
  {
    t.state.transcript[|t.state.transcript| - 1]
  }

  lemma {:induction false} HttpErrorReply(s: ChatState, systemPrompt: string, status: nat, store: Store)
    requires !Blank(s.input)
    ensures Last(HandleChatSend(s, systemPrompt, HttpError(status), store))
         == Message(Assistant, HttpErrorText(status))
  {
  }

  /** The status 500 scenario, with the text written out. */
  lemma {:induction false} ServerErrorText()
    ensures HttpErrorText(500)
         == "I'm sorry, but there was an error communicating with the AI (500). Please try again."
  {
    var digits := Decimal.Render(5 * 100);
    assert digits == "500" by {
      Decimal.RenderHundreds(5);
    }
    assert HttpErrorOpening + digits + HttpErrorClosing
        == "I'm sorry, but there was an error communicating with the AI (500). Please try again.";
  }

  lemma {:induction false} ParseErrorReply(s: ChatState, systemPrompt: string, store: Store)
    requires !Blank(s.input)
    ensures Last(HandleChatSend(s, systemPrompt, ParseError, store)) == Message(Assistant, InvalidResponseText)
  {
  }

  lemma {:induction false} NetworkErrorReply(s: ChatState, systemPrompt: string, store: Store)
    requires !Blank(s.input)
    ensures Last(HandleChatSend(s, systemPrompt, NetworkError, store)) == Message(Assistant, SendErrorText)
  {
  }

  /** A parsed body with choices: the first choice's content, or "" when it
      has none, unless saving that reply under the current conversation
      throws. */
  lemma {:induction false} ChoiceReply(s: ChatState, systemPrompt: string, choices: seq<Choice>, store: Store)
    requires !Blank(s.input) && |choices| > 0
    ensures var last := Last(HandleChatSend(s, systemPrompt, Ok(Some(choices)), store));
      && (!Truthy(s.conversation) || store.replySaved ==>
            last == Message(Assistant, if choices[0].content.Some? then choices[0].content.value else ""))
      && (Truthy(s.conversation) && !store.replySaved ==> last == Message(Assistant, SendErrorText))
  {
  }

  /** A parsed body without choices, or with an empty list of them. */
  lemma {:induction false} NoChoicesReply(s: ChatState, systemPrompt: string, choices: Option<seq<Choice>>, store: Store)
    requires !Blank(s.input)
    requires choices.None? || choices.value == []
    ensures Last(HandleChatSend(s, systemPrompt, Ok(choices), store)) == Message(Assistant, UnexpectedFormatText)
  {
  }

  /** The placeholder is gone once the turn settles: the two new entries hold
      it only when the gateway's own reply is the placeholder text. */
  lemma {:induction false} PlaceholderNotLeft(s: ChatState, systemPrompt: string, outcome: Outcome, store: Store)
    requires !Blank(s.input)
    ensures var added := HandleChatSend(s, systemPrompt, outcome, store).state.transcript[|s.transcript|..];
      Placeholder in added ==>
        && HasChoices(outcome)
        && FirstChoiceText(outcome.choices.value) == Placeholder.content
  {
    var t := HandleChatSend(s, systemPrompt, outcome, store);
    assert t.state.transcript == TurnTranscript(s, outcome, store);
    var added := t.state.transcript[|s.transcript|..];
    TurnAdds(s, outcome, store);
    if Placeholder in added {
      assert added[1] == Placeholder;
      ReplyNotPlaceholder(outcome, s.conversation, store);
    }
  }

  /** The two entries a settled turn appends. */
  lemma {:induction false} TurnAdds(s: ChatState, outcome: Outcome, store: Store)
    ensures TurnTranscript(s, outcome, store)[|s.transcript|..]
         == [Message(User, s.input), Message(Assistant, ReplyText(outcome, s.conversation, store))]
  {
  }

  /** Only a reply taken from the gateway's choices can read as the
      placeholder; none of the fixed texts does. */
  lemma {:induction false} ReplyNotPlaceholder(outcome: Outcome, conversation: Option<ConversationId>, store: Store)
    ensures ReplyText(outcome, conversation, store) == Placeholder.content ==>
      && HasChoices(outcome)
      && FirstChoiceText(outcome.choices.value) == Placeholder.content
  {
  }

  /** No error text is the placeholder text. */
  lemma {:induction false} ServerErrorTextNotPlaceholder(outcome: Outcome)
    ensures outcome.HttpError? ==> HttpErrorText(outcome.status) != Placeholder.content
  {
    if outcome.HttpError? {
      assert |HttpErrorText(outcome.status)| > |Placeholder.content|;
    }
  }

  // ---------------------------------------------------------------------
  // The calls to the conversation store

  predicate IsReplySave(e: Effect) {
    e.SaveMessage? && e.message.role == Assistant
  }

  predicate SavesReply(effects: seq<Effect>) {
    exists k :: 0 <= k < |effects| && IsReplySave(effects[k])
  }

  /** The reply is saved exactly when choices came back and a conversation was
      already current before the turn; one created during the turn does not
      count. */
  lemma {:induction false} ReplySavedOnlyUnderCurrent(s: ChatState, systemPrompt: string, outcome: Outcome, store: Store)
    ensures SavesReply(HandleChatSend(s, systemPrompt, outcome, store).effects)
        <==> !Blank(s.input) && Truthy(s.conversation) && HasChoices(outcome)
  {
  }

  /** The user message is saved exactly when an identifier is at hand: the
      current one, or the one the store returned for a new conversation. */
  lemma {:induction false} UserMessageSaved(s: ChatState, systemPrompt: string, outcome: Outcome, store: Store)
    ensures SaveMessage(Message(User, s.input)) in HandleChatSend(s, systemPrompt, outcome, store).effects
        <==> !Blank(s.input) && (Truthy(s.conversation) || Truthy(store.createdId))
  {
  }

  /** A conversation is created, under the default title, exactly when none is
      current; the turn never changes the current conversation itself. */
  lemma {:induction false} ConversationCreated(s: ChatState, systemPrompt: string, outcome: Outcome, store: Store)
    ensures var t := HandleChatSend(s, systemPrompt, outcome, store);
      && t.state.conversation == s.conversation
      && (CreateConversation(DefaultTitle(s.input)) in t.effects <==> !Blank(s.input) && !Truthy(s.conversation))
  {
  }
}
