/**
 * The llama.cpp engine: fixed chat-template tokens with `<end_of_turn>` as
 * end token, a `formatChat` that ends every block with the end token and a
 * newline, and a `generateResponse` that drops the end token from the
 * backend's fragment stream.
 */
module LlamaCppInferenceEngine {
  import opened Text
  import opened Messages
  import opened PromptTemplate

  const USER_TOKEN := "<|user|>"
  const ASSISTANT_TOKEN := "<|assistant|>"
  const SYSTEM_TOKEN := "<|system|>"
  const END_TOKEN := "<end_of_turn>"
  const BOS_TOKEN := ""
  const EOS_TOKEN := ""

  /** The fields are initialised and never reassigned. */
  const LLAMA_TEMPLATE := Template(BOS_TOKEN, SYSTEM_TOKEN, USER_TOKEN, ASSISTANT_TOKEN, END_TOKEN + "\n", EOS_TOKEN)

  /** `formatChat`, for a conversation with no image or audio message. */
  method FormatChat(messages: seq<Message>, systemPrompt: string) returns (s: string)
    requires AllText(Snapshots(messages))
    ensures s == Render(LLAMA_TEMPLATE, Snapshots(messages), systemPrompt)
  {
    s := BuildWith(LLAMA_TEMPLATE, messages, systemPrompt);
  }

  /** Each message, the system messages of the conversation included, is
      `roleToken + "\n" + text + "<end_of_turn>\n"`. */
  lemma EntryShape(text: string, role: MessageType)
    ensures Entry(LLAMA_TEMPLATE, TextMsg(text, role))
      == (match role
          case USER => USER_TOKEN
          case ASSISTANT => ASSISTANT_TOKEN
          case SYSTEM => SYSTEM_TOKEN) + "\n" + text + END_TOKEN + "\n"
  {
  }

  /** No BOS token; the system block only for a non-blank system prompt;
      the prompt ends in the assistant token with no EOS token. */
  lemma FormatShape(conv: seq<Msg>, systemPrompt: string)
    ensures !IsBlank(systemPrompt) ==>
      Render(LLAMA_TEMPLATE, conv, systemPrompt)
        == SYSTEM_TOKEN + "\n" + systemPrompt + END_TOKEN + "\n" + Body(LLAMA_TEMPLATE, conv) + ASSISTANT_TOKEN
    ensures IsBlank(systemPrompt) ==>
      Render(LLAMA_TEMPLATE, conv, systemPrompt) == Body(LLAMA_TEMPLATE, conv) + ASSISTANT_TOKEN
  {
    assert IsBlank(LLAMA_TEMPLATE.bos) && IsBlank(LLAMA_TEMPLATE.eos);
    PlainRender(LLAMA_TEMPLATE, conv, systemPrompt);
  }

  /** `send(prompt).filter { it != endToken }`. */
  function GenerateResponse(stream: seq<string>): (r: seq<string>)
    ensures forall i :: 0 <= i < |r| ==> r[i] != END_TOKEN
    ensures forall x :: x != END_TOKEN ==> multiset(r)[x] == multiset(stream)[x]
    ensures |r| <= |stream|
  {
    if stream == [] then []
    else
      assert stream == [stream[0]] + stream[1..];
      if stream[0] == END_TOKEN then GenerateResponse(stream[1..])
      else [stream[0]] + GenerateResponse(stream[1..])
  }

  /** The filter works fragment by fragment: it distributes over joining
      two stretches of the stream, so the order of what it keeps is the
      stream's order. */
  lemma {:induction false} FilterAppend(a: seq<string>, b: seq<string>)
    ensures GenerateResponse(a + b) == GenerateResponse(a) + GenerateResponse(b)
    decreases |a|
  {
    if a != [] {
      assert (a + b)[1..] == a[1..] + b;
      assert (a + b)[0] == a[0];
      FilterAppend(a[1..], b);
    } else {
      assert a + b == b;
    }
  }

  /** A fragment is dropped exactly when it is the end token itself; one
      that merely contains it is kept. */
  lemma FilterOne(x: string)
    ensures GenerateResponse([x]) == if x == END_TOKEN then [] else [x]
  {
    assert [x][1..] == [];
  }

  /** A stream without the end token passes unchanged. */
  lemma {:induction false} FilterClean(stream: seq<string>)
    requires forall i :: 0 <= i < |stream| ==> stream[i] != END_TOKEN
    ensures GenerateResponse(stream) == stream
    decreases |stream|
  {
    if stream != [] {
      FilterClean(stream[1..]);
      assert stream == [stream[0]] + stream[1..];
    }
  }
}
