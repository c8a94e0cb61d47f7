/**
 * `buildPrompt`, identical in both view models: the system block when the
 * system prompt is not blank, the messages oldest-first as
 * `token + "\n" + text + " <|end|>\n"`, and `"<|assistant|>"` to ask for the
 * reply. There is no BOS or EOS token.
 */
module ChatPrompt {
  import opened Text
  import opened Messages
  import opened PromptTemplate

  const SYSTEM_TOKEN := "<|system|>"
  const USER_TOKEN := "<|user|>"
  const ASSISTANT_TOKEN := "<|assistant|>"
  const BLOCK_END := " <|end|>\n"

  const CHAT_TEMPLATE := Template("", SYSTEM_TOKEN, USER_TOKEN, ASSISTANT_TOKEN, BLOCK_END, "")

  /** `MessageType.SYSTEM -> TODO()`: a SYSTEM text message makes the builder
      throw, so the builder is only defined without one. */
  predicate NoSystemText(conv: seq<Msg>) {
    forall i :: 0 <= i < |conv| ==> !(conv[i].TextMsg? && conv[i].role == SYSTEM)
  }

  /** The prompt `buildPrompt` returns for a conversation, newest message first. */
  function Prompt(conv: seq<Msg>, systemPrompt: string): string {
    Render(CHAT_TEMPLATE, conv, systemPrompt)
  }

  /** A message's block: user and assistant texts in their token's block,
      images and audio nothing. */
  lemma EntryShape(m: Msg)
    ensures m.TextMsg? && m.role == USER ==>
      Entry(CHAT_TEMPLATE, m) == USER_TOKEN + "\n" + m.text + BLOCK_END
    ensures m.TextMsg? && m.role == ASSISTANT ==>
      Entry(CHAT_TEMPLATE, m) == ASSISTANT_TOKEN + "\n" + m.text + BLOCK_END
    ensures !m.TextMsg? ==> Entry(CHAT_TEMPLATE, m) == ""
  {
  }

  /** The prompt opens with the system block exactly when the system prompt
      is not blank, and otherwise with the oldest message's block. */
  lemma PromptHeader(conv: seq<Msg>, systemPrompt: string)
    ensures !IsBlank(systemPrompt) ==>
      Prompt(conv, systemPrompt)
        == SYSTEM_TOKEN + "\n" + systemPrompt + BLOCK_END + Body(CHAT_TEMPLATE, conv) + ASSISTANT_TOKEN
    ensures IsBlank(systemPrompt) ==>
      Prompt(conv, systemPrompt) == Body(CHAT_TEMPLATE, conv) + ASSISTANT_TOKEN
  {
    assert IsBlank("");
    if IsBlank(systemPrompt) {
      assert Header(CHAT_TEMPLATE, systemPrompt) == "";
    } else {
      assert Header(CHAT_TEMPLATE, systemPrompt) == SYSTEM_TOKEN + "\n" + systemPrompt + BLOCK_END;
    }
    assert Tail(CHAT_TEMPLATE) == ASSISTANT_TOKEN;
  }

  /** The prompt always ends with the assistant token; for an empty
      conversation and a blank system prompt it is nothing else. */
  lemma PromptEnds(conv: seq<Msg>, systemPrompt: string)
    ensures EndsWith(Prompt(conv, systemPrompt), ASSISTANT_TOKEN)
    ensures conv == [] && IsBlank(systemPrompt) ==> Prompt(conv, systemPrompt) == ASSISTANT_TOKEN
  {
    assert IsBlank("");
    assert Tail(CHAT_TEMPLATE) == ASSISTANT_TOKEN;
    EndsWithTail(CHAT_TEMPLATE, conv, systemPrompt);
    if conv == [] && IsBlank(systemPrompt) {
      EmptyConversation(CHAT_TEMPLATE, systemPrompt);
    }
  }

  /** Sending a newer message inserts exactly its block before the final
      assistant token. */
  lemma PromptPrepend(m: Msg, conv: seq<Msg>, systemPrompt: string)
    ensures var before := Prompt(conv, systemPrompt);
      |ASSISTANT_TOKEN| <= |before| &&
      Prompt([m] + conv, systemPrompt)
        == before[..|before| - |ASSISTANT_TOKEN|] + Entry(CHAT_TEMPLATE, m) + ASSISTANT_TOKEN
  {
    assert IsBlank("");
    assert Tail(CHAT_TEMPLATE) == ASSISTANT_TOKEN;
    PrependMessage(CHAT_TEMPLATE, m, conv, systemPrompt);
  }
}
