/**
 * The chat screen's view model in the `com.localassistant` package: the
 * conversation stored newest-first, the system prompt, and the streaming of
 * the assistant's reply into a placeholder message.
 */
module ChatViewModel {
  import opened Wrappers
  import opened Messages
  import opened PromptTemplate
  import opened ChatPrompt
  import opened ChatReply

  const WELCOME := "Welcome! How can I help you today?"
  const DEFAULT_SYSTEM_PROMPT := "You are a helpful AI assistant."

  /** The placeholder's final text after the engine streamed `fragments`:
      the reply extracted from all of them, or nothing without an engine. */
  function StreamedReply(hasInference: bool, fragments: seq<string>): string {
    if hasInference then ExtractAssistantReply(Concat(fragments)) else ""
  }

  class ChatViewModel {
    var messages: seq<Message>
    var systemPrompt: string
    var isModelAvailable: bool
    /** `onnxInference != null`: the engine was created after the model was found. */
    var hasInference: bool

    /** The conversation as the prompt builder reads it now, newest first. */
    function Conversation(): seq<Msg>
      reads this, TextObjects(messages)
    {
      Snapshots(messages)
    }

    /** `init`: the welcome message; availability and engine creation are
        the outcomes of the repository check and of `initOnnxInference`. */
    constructor(available: bool, inferenceStarts: bool)
      ensures Conversation() == [TextMsg(WELCOME, ASSISTANT)]
      ensures systemPrompt == DEFAULT_SYSTEM_PROMPT
      ensures isModelAvailable == available
      ensures hasInference == (available && inferenceStarts)
    {
      var welcome := new TextMessage(WELCOME, ASSISTANT);
      messages := [Text(welcome)];
      systemPrompt := DEFAULT_SYSTEM_PROMPT;
      isModelAvailable := available;
      hasInference := available && inferenceStarts;
    }

    /** `buildPrompt`. */
    method BuildPrompt(conversation: seq<Message>) returns (prompt: string)
      requires NoSystemText(Snapshots(conversation))
      ensures prompt == Prompt(Snapshots(conversation), systemPrompt)
    {
      prompt := BuildWith(CHAT_TEMPLATE, conversation, systemPrompt);
    }

    /** `generateAssistantResponse` with the engine's output as `fragments`:
        the prompt is built from the conversation before an empty ASSISTANT
        placeholder goes in front; each fragment extends the accumulated text
        and the placeholder is rewritten to the reply extracted from it. */
    method GenerateAssistantResponse(fragments: seq<string>) returns (prompt: string)
      requires NoSystemText(Conversation())
      modifies this
      ensures prompt == Prompt(old(Conversation()), systemPrompt)
      ensures |messages| == |old(messages)| + 1 && messages[1..] == old(messages)
      ensures messages[0].Text? && fresh(messages[0].message)
      ensures Conversation() == [TextMsg(StreamedReply(hasInference, fragments), ASSISTANT)] + old(Conversation())
      ensures systemPrompt == old(systemPrompt) && isModelAvailable == old(isModelAvailable)
      ensures hasInference == old(hasInference)
    {
      ghost var before := messages;
      prompt := BuildPrompt(messages);
      SnapshotsUnchanged(before);
      var placeholder := new TextMessage("", ASSISTANT);
      messages := [Text(placeholder)] + messages;
      if hasInference {
        Stream(placeholder, fragments);
      }
      SnapshotsUnchanged(before);
      SnapshotsCons(Text(placeholder), before);
      assert messages[1..] == before;
    }

    /** `sendMessage`: the message goes in front; a USER text message is answered. */
    method SendMessage(message: Message, fragments: seq<string>) returns (prompt: Option<string>)
      requires IsUserText(Snapshot(message)) ==> NoSystemText([Snapshot(message)] + Conversation())
      modifies this
      ensures IsUserText(old(Snapshot(message))) ==>
        && prompt == Some(Prompt([old(Snapshot(message))] + old(Conversation()), systemPrompt))
        && Conversation() == [TextMsg(StreamedReply(hasInference, fragments), ASSISTANT), old(Snapshot(message))]
                             + old(Conversation())
      ensures !IsUserText(old(Snapshot(message))) ==>
        prompt == None && messages == [message] + old(messages)
        && Conversation() == [old(Snapshot(message))] + old(Conversation())
      ensures systemPrompt == old(systemPrompt) && isModelAvailable == old(isModelAvailable)
      ensures hasInference == old(hasInference)
    {
      ghost var before := messages;
      ghost var conv0 := Conversation();
      ghost var snap := Snapshot(message);
      messages := [message] + messages;
      SnapshotsUnchanged(before);
      SnapshotsCons(message, before);
      assert Conversation() == [snap] + conv0;
      if message.Text? && message.message.msgType == USER {
        var p := GenerateAssistantResponse(fragments);
        assert Conversation() == [TextMsg(StreamedReply(hasInference, fragments), ASSISTANT)] + ([snap] + conv0);
        prompt := Some(p);
      } else {
        prompt := None;
      }
    }

    /** `resetChat`: every message goes; the system prompt stays. */
    method ResetChat()
      modifies this
      ensures messages == []
      ensures systemPrompt == old(systemPrompt) && isModelAvailable == old(isModelAvailable)
      ensures hasInference == old(hasInference)
    {
      messages := [];
    }
  }

  /** The `streamText` callback applied to each fragment in turn: the
      accumulated text grows by the fragment and the message shows the reply
      extracted from it. */
  method Stream(placeholder: TextMessage, fragments: seq<string>)
    requires placeholder.text == ""
    modifies placeholder
    ensures placeholder.text == StreamedReply(true, fragments)
  {
    var accumulatedText := "";
    for i := 0 to |fragments|
      invariant accumulatedText == Concat(fragments[..i])
      invariant placeholder.text == if i == 0 then "" else ExtractAssistantReply(accumulatedText)
    {
      ConcatPrefixStep(fragments, i);
      accumulatedText := accumulatedText + fragments[i];
      placeholder.text := ExtractAssistantReply(accumulatedText);
    }
    assert fragments[..|fragments|] == fragments;
    if fragments == [] {
      ExtractEmpty();
    }
  }
}
