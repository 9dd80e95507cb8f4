/**
 * The decisions the voice assistant makes around its chat requests: how hard
 * a request is, which model answers it, how the reply text is assembled, and
 * which message of an assistant thread is the answer.
 */
module Assistant {
  import opened Wrappers
  import opened Seqs
  import opened Text

  /** Phrases that ask for the strongest model without consulting the classifier. */
  const ThinkHardPhrases: seq<string> := ["think hard", "deep think", "deeply think", "deep thinking"]

  predicate AsksToThinkHard(userText: string)
  {
    exists k :: 0 <= k < |ThinkHardPhrases| && Contains(Lower(userText), ThinkHardPhrases[k])
  }

  /**
   * What the classifier request produced: the reply's message content, or
   * an API error. It is only requested when no think-hard phrase is present.
   */
  datatype ClassifierOutcome = Classified(content: string) | ApiError

  datatype Complexity = Simple | Complex

  /** `determine_task_complexity`: the complexity and the think-hard flag. */
  function DetermineTaskComplexity(userText: string, outcome: ClassifierOutcome): (r: (Complexity, bool))
    ensures r.1 <==> AsksToThinkHard(userText)
    ensures r.1 ==> r.0 == Complex
    ensures !r.1 && outcome.ApiError? ==> r.0 == Simple
    ensures !r.1 && outcome.Classified? ==> (r.0 == Complex <==> Lower(Strip(outcome.content)) == "complex")
  {
    if AsksToThinkHard(userText) then (Complex, true)
    else
      match outcome
      case ApiError => (Simple, false)
      case Classified(content) =>
        var answer := Lower(Strip(content));
        if answer == "complex" then (Complex, false) else (Simple, false)
  }

  datatype ModelChoice = ModelChoice(model: string, maxTokens: nat)

  /** The model selection at the top of `send_to_openai`. */
  function SelectModel(complexity: Complexity, thinkHard: bool): (m: ModelChoice)
    ensures m.model == "gpt-3.5-turbo" <==> !thinkHard && complexity == Simple
    ensures m.maxTokens == 2000 <==> thinkHard
    ensures m.maxTokens in {1000, 1500, 2000}
  {
    if thinkHard then ModelChoice("gpt-4", 2000)
    else if complexity == Simple then ModelChoice("gpt-3.5-turbo", 1000)
    else ModelChoice("gpt-4", 1500)
  }

  /**
   * End to end: a think-hard request gets the large budget on GPT-4 whatever
   * the classifier says; otherwise GPT-4 answers exactly when the classifier
   * said "complex", and an API error falls back to GPT-3.5.
   */
  lemma ModelForRequest(userText: string, outcome: ClassifierOutcome)
    ensures var (c, t) := DetermineTaskComplexity(userText, outcome);
      var m := SelectModel(c, t);
      && (AsksToThinkHard(userText) ==> m == ModelChoice("gpt-4", 2000))
      && (!AsksToThinkHard(userText) && outcome.ApiError? ==> m == ModelChoice("gpt-3.5-turbo", 1000))
      && (!AsksToThinkHard(userText) && outcome.Classified? ==>
            m == (if Lower(Strip(outcome.content)) == "complex" then ModelChoice("gpt-4", 1500) else ModelChoice("gpt-3.5-turbo", 1000)))
  {
  }

  /** A text whose lower-cased form contains "think hard" is sent to GPT-4 with 2000 tokens. */
  lemma ThinkHardExample(outcome: ClassifierOutcome)
    ensures SelectModel(DetermineTaskComplexity("Please THINK HARD", outcome).0, DetermineTaskComplexity("Please THINK HARD", outcome).1)
      == ModelChoice("gpt-4", 2000)
  {
    assert Lower("Please THINK HARD")[7..17] == "think hard";
    assert OccursAt(Lower("Please THINK HARD"), ThinkHardPhrases[0], 7);
  }

  /** One item of a list-shaped reply content; keys the item lacks are `None`. */
  datatype ContentItem = ContentItem(kind: Option<string>, text: Option<string>)

  /** The reply content: a plain string, or a list of typed items. */
  datatype ReplyContent = Plain(s: string) | Items(items: seq<ContentItem>)

  /** What one item adds to the reply: its text when it is a text item, else nothing. */
  function ItemText(item: ContentItem): string
  {
    if item.kind == Some("text") then item.text.GetOr("") else ""
  }

  /** The loop `assistant_reply += item.get('text', '')` over the text items. */
  function ItemsText(items: seq<ContentItem>): (r: string)
    ensures (forall k :: 0 <= k < |items| ==> ItemText(items[k]) == "") ==> r == ""
    decreases |items|
  {
    if items == [] then "" else ItemsText(items[..|items| - 1]) + ItemText(items[|items| - 1])
  }

  /** The reply text is the items' contributions, in order. */
  lemma {:induction false} ItemsTextFlatten(items: seq<ContentItem>)
    ensures ItemsText(items) == Flatten(seq(|items|, i requires 0 <= i < |items| => ItemText(items[i])))
    decreases |items|
  {
    if items != [] {
      var init := items[..|items| - 1];
      ItemsTextFlatten(init);
      var parts := seq(|items|, i requires 0 <= i < |items| => ItemText(items[i]));
      assert parts[..|parts| - 1] == seq(|init|, i requires 0 <= i < |init| => ItemText(init[i]));
    }
  }

  /** Items that are not text items contribute nothing, wherever they are. */
  lemma {:induction false} ItemsTextAppend(a: seq<ContentItem>, b: seq<ContentItem>)
    ensures ItemsText(a + b) == ItemsText(a) + ItemsText(b)
    decreases |b|
  {
    if b == [] {
      assert a + b == a;
    } else {
      var init, last := b[..|b| - 1], b[|b| - 1];
      assert (a + b)[..|a + b| - 1] == a + init;
      assert (a + b)[|a + b| - 1] == last;
      ItemsTextAppend(a, init);
      assert ItemsText(a + b) == ItemsText(a + init) + ItemText(last);
      assert ItemsText(b) == ItemsText(init) + ItemText(last);
    }
  }

  lemma IgnoresOtherItems(a: seq<ContentItem>, item: ContentItem, b: seq<ContentItem>)
    requires item.kind != Some("text")
    ensures ItemsText(a + [item] + b) == ItemsText(a + b)
  {
    var left := a + [item];
    ItemsTextAppend(left, b);
    ItemsTextAppend(a, [item]);
    ItemsTextSingle(item);
    assert ItemsText(left) == ItemsText(a);
    ItemsTextAppend(a, b);
  }

  lemma ItemsTextSingle(item: ContentItem)
    ensures ItemsText([item]) == ItemText(item)
  {
    assert [item][..0] == [];
  }

  /** The reply text before stripping: the plain string, or the text items concatenated. */
  function RawReply(content: ReplyContent): string
  {
    match content
    case Plain(s) => s
    case Items(items) => ItemsText(items)
  }

  /**
   * The reply `send_to_openai` returns in the o1-mini script: the raw reply
   * with the whitespace around it removed.
   */
  function AssistantReply(content: ReplyContent): (reply: string)
    ensures |reply| == 0 || (!IsSpace(reply[0]) && !IsSpace(reply[|reply| - 1]))
    ensures exists lo :: StrippedWindow(RawReply(content), reply, lo)
    ensures Strip(reply) == reply
  {
    var raw := RawReply(content);
    StripIdempotent(raw);
    Strip(raw)
  }

  /**
   * The reply is the only text that sits in the raw reply with nothing but
   * whitespace around it and no whitespace at its own ends.
   */
  lemma ReplyDetermined(content: ReplyContent, reply: string, lo: nat)
    requires StrippedWindow(RawReply(content), reply, lo)
    ensures reply == AssistantReply(content)
  {
    StripUnique(RawReply(content), reply, lo);
  }

  /** A reply of one text item with no surrounding whitespace comes back as it is. */
  lemma SingleTextItemReply(t: string)
    requires |t| == 0 || (!IsSpace(t[0]) && !IsSpace(t[|t| - 1]))
    ensures AssistantReply(Items([ContentItem(Some("text"), Some(t))])) == t
    ensures AssistantReply(Items([ContentItem(Some("text"), None)])) == ""
  {
    var items := [ContentItem(Some("text"), Some(t))];
    assert items[..0] == [];
    assert ItemsText(items) == t;
    StripStripped(t);
    var bare := [ContentItem(Some("text"), None)];
    assert bare[..0] == [];
  }

  /** The `text` entry of a thread message's content part; a missing `value` is `None`. */
  datatype TextEntry = TextEntry(value: Option<string>)

  /** One content part of a thread message; a missing `text` key is `None`. */
  datatype ContentPart = ContentPart(text: Option<TextEntry>)

  /** A message of the thread listing; missing keys are `None`. */
  datatype ThreadMessage = ThreadMessage(role: Option<string>, content: Option<seq<ContentPart>>)

  const NoResponse := "No response from the assistant."

  /** The error Python raises when the content list is empty. */
  const EmptyContentError := "IndexError: list index out of range"

  predicate IsAssistant(m: ThreadMessage)
  {
    m.role == Some("assistant")
  }

  /**
   * `msg.get('content', [{}])[0].get('text', {}).get('value', '')`: the value
   * of the first part's text entry, "" when any key on the way is missing.
   */
  function MessageText(m: ThreadMessage): (r: Result<string, string>)
    ensures r.Failure? <==> m.content == Some([])
    ensures r.Failure? ==> r.error == EmptyContentError
    ensures m.content.None? ==> r == Success("")
    ensures m.content.Some? && |m.content.value| > 0 ==>
              var first := m.content.value[0];
              r == Success(if first.text.Some? && first.text.value.value.Some? then first.text.value.value.value else "")
  {
    var parts := m.content.GetOr([ContentPart(None)]);
    if parts == [] then Failure(EmptyContentError)
    else Success(parts[0].text.GetOr(TextEntry(None)).value.GetOr(""))
  }

  /** The assistant's messages, in listing order. */
  function AssistantMessages(messages: seq<ThreadMessage>): (r: seq<ThreadMessage>)
    ensures forall k :: 0 <= k < |r| ==> IsAssistant(r[k])
    ensures |r| <= |messages|
    decreases |messages|
  {
    if messages == [] then []
    else
      var init := AssistantMessages(messages[..|messages| - 1]);
      var m := messages[|messages| - 1];
      if IsAssistant(m) then init + [m] else init
  }

  /** Filtering distributes over concatenation, so the kept messages keep their listing order. */
  lemma {:induction false} AssistantMessagesAppend(a: seq<ThreadMessage>, b: seq<ThreadMessage>)
    ensures AssistantMessages(a + b) == AssistantMessages(a) + AssistantMessages(b)
    decreases |b|
  {
    if b == [] {
      assert a + b == a;
    } else {
      var init, m := b[..|b| - 1], b[|b| - 1];
      assert (a + b)[..|a + b| - 1] == a + init;
      assert (a + b)[|a + b| - 1] == m;
      AssistantMessagesAppend(a, init);
    }
  }

  /** A single message is kept exactly when it is the assistant's. */
  lemma AssistantMessagesSingle(m: ThreadMessage)
    ensures AssistantMessages([m]) == if IsAssistant(m) then [m] else []
  {
    assert [m][..0] == [];
  }

  /**
   * The answer the raw-assistant script returns, given the `data` field of
   * the thread listing (`None` when the field is missing): the text of the
   * last assistant message in the order the listing gives them.
   */
  function LastAssistantText(data: Option<seq<ThreadMessage>>): (r: Result<string, string>)
    ensures data.None? ==> r == Success(NoResponse)
    ensures r.Failure? ==> r.error == EmptyContentError
  {
    var mine := AssistantMessages(data.GetOr([]));
    if mine == [] then Success(NoResponse) else MessageText(mine[|mine| - 1])
  }

  /**
   * The answer comes from the last assistant message: a later message
   * decides when it is the assistant's, and other roles are skipped.
   */
  lemma LastAssistantTextSnoc(messages: seq<ThreadMessage>, m: ThreadMessage)
    ensures LastAssistantText(Some(messages + [m]))
      == if IsAssistant(m) then MessageText(m) else LastAssistantText(Some(messages))
  {
    assert (messages + [m])[..|messages|] == messages;
  }

  /** Without an assistant message, the fixed apology comes back. */
  lemma {:induction false} NoAssistantMessage(messages: seq<ThreadMessage>)
    requires forall k :: 0 <= k < |messages| ==> !IsAssistant(messages[k])
    ensures LastAssistantText(Some(messages)) == Success(NoResponse)
    ensures LastAssistantText(None) == Success(NoResponse)
    decreases |messages|
  {
    if messages != [] {
      NoAssistantMessage(messages[..|messages| - 1]);
    }
  }

  /** The message at `k` answers when it is the assistant's and no assistant message follows it. */
  lemma {:induction false} LastAssistantAnswers(messages: seq<ThreadMessage>, k: nat)
    requires k < |messages| && IsAssistant(messages[k])
    requires forall j :: k < j < |messages| ==> !IsAssistant(messages[j])
    ensures LastAssistantText(Some(messages)) == MessageText(messages[k])
    decreases |messages|
  {
    var init := messages[..|messages| - 1];
    var m := messages[|messages| - 1];
    assert messages == init + [m];
    LastAssistantTextSnoc(init, m);
    if k < |messages| - 1 {
      LastAssistantAnswers(init, k);
    }
  }
}
