/**
 * The chat screen's view model in the `com.example.localassistant` package:
 * the same conversation store and prompt as the other package, a `"..."`
 * typing indicator replaced by the reply extracted from the engine's
 * response, and the release of the llama.cpp model when the view model is
 * cleared.
 */
module ExampleChatViewModel {
  import opened Wrappers
  import opened Messages
  import opened ChatPrompt
  import opened ChatReply

  const WELCOME := "Welcome! How can I help you today?"
  const DEFAULT_SYSTEM_PROMPT := "You are a helpful AI assistant."
  const TYPING_INDICATOR := "..."

  /** The native resources the view model holds: the loaded model context
      (`llamaCppModelContext`), whether the engine object exists
      (`llamaCppInference != null`), and the contexts handed to
      `unloadModel` so far. */
  datatype Resources = Resources(context: Option<int>, hasEngine: bool, unloaded: seq<int>)

  /** `onCleared`: a held context is unloaded through the engine and the
      reference is dropped. */
  function Cleared(r: Resources): (r': Resources)
    ensures r'.context == None && r'.hasEngine == r.hasEngine
    ensures r.context.Some? && r.hasEngine ==> r'.unloaded == r.unloaded + [r.context.value]
    ensures !(r.context.Some? && r.hasEngine) ==> r'.unloaded == r.unloaded
  {
    if r.context.Some? then
      Resources(None, r.hasEngine, r.unloaded + if r.hasEngine then [r.context.value] else [])
    else r
  }

  /** `onCleared` called `n` times in a row. */
  function ClearedTimes(r: Resources, n: nat): Resources
    decreases n
  {
    if n == 0 then r else ClearedTimes(Cleared(r), n - 1)
  }

  /** However often the view model is cleared, the model is unloaded at most
      once, and only the context that was held. */
  lemma {:induction false} UnloadAtMostOnce(r: Resources, n: nat)
    requires n >= 1
    ensures var r' := ClearedTimes(r, n);
      && r'.context == None
      && r'.unloaded == Cleared(r).unloaded
      && |r'.unloaded| <= |r.unloaded| + 1
    decreases n
  {
    if n > 1 {
      var c := Cleared(r);
      UnloadAtMostOnce(c, n - 1);
      assert Cleared(c) == c;
    }
  }

  class ChatViewModel {
    var messages: seq<Message>
    var systemPrompt: string
    var isModelAvailable: bool
    /** `llamaCppInference != null`. */
    var hasEngine: bool
    /** `llamaCppModelContext`. */
    var modelContext: Option<int>
    /** The contexts passed to `unloadModel`, oldest first. */
    var unloaded: seq<int>

    function Conversation(): seq<Msg>
      reads this, TextObjects(messages)
    {
      Snapshots(messages)
    }

    function Held(): Resources
      reads this
    {
      Resources(modelContext, hasEngine, unloaded)
    }

    /** `init`: the welcome message; when the model is available the engine is
        created and `loaded` is what `loadModelFromFile` returned. */
    constructor(available: bool, loaded: Option<int>)
      ensures Conversation() == [TextMsg(WELCOME, ASSISTANT)]
      ensures systemPrompt == DEFAULT_SYSTEM_PROMPT
      ensures isModelAvailable == available
      ensures Held() == Resources(if available then loaded else None, available, [])
    {
      var welcome := new TextMessage(WELCOME, ASSISTANT);
      messages := [Text(welcome)];
      systemPrompt := DEFAULT_SYSTEM_PROMPT;
      isModelAvailable := available;
      hasEngine := available;
      modelContext := if available then loaded else None;
      unloaded := [];
    }

    /** `buildPrompt`. */
    method BuildPrompt(conversation: seq<Message>) returns (prompt: string)
      requires NoSystemText(Snapshots(conversation))
      ensures prompt == Prompt(Snapshots(conversation), systemPrompt)
    {
      prompt := PromptTemplate.BuildWith(CHAT_TEMPLATE, conversation, systemPrompt);
    }

    /** `generateAssistantResponse` with the engine's text as `response`: the
        prompt is built first, then the typing indicator goes in front and is
        replaced by the extracted reply. */
    method GenerateAssistantResponse(response: string) returns (prompt: string)
      requires NoSystemText(Conversation())
      modifies this
      ensures prompt == Prompt(old(Conversation()), systemPrompt)
      ensures |messages| == |old(messages)| + 1 && messages[1..] == old(messages)
      ensures messages[0].Text? && fresh(messages[0].message)
      ensures Conversation() == [TextMsg(ExtractAssistantReply(response), ASSISTANT)] + old(Conversation())
      ensures systemPrompt == old(systemPrompt) && isModelAvailable == old(isModelAvailable)
      ensures Held() == old(Held())
    {
      ghost var before := messages;
      prompt := BuildPrompt(messages);
      SnapshotsUnchanged(before);
      var placeholder := new TextMessage(TYPING_INDICATOR, ASSISTANT);
      messages := [Text(placeholder)] + messages;
      var cleanedReply := ExtractAssistantReply(response);
      placeholder.text := cleanedReply;
      SnapshotsUnchanged(before);
      SnapshotsCons(Text(placeholder), before);
      assert messages[1..] == before;
    }

    /** `sendMessage`: the message goes in front; a USER text message is answered. */
    method SendMessage(message: Message, response: string) returns (prompt: Option<string>)
      requires IsUserText(Snapshot(message)) ==> NoSystemText([Snapshot(message)] + Conversation())
      modifies this
      ensures IsUserText(old(Snapshot(message))) ==>
        && prompt == Some(Prompt([old(Snapshot(message))] + old(Conversation()), systemPrompt))
        && Conversation() == [TextMsg(ExtractAssistantReply(response), ASSISTANT), old(Snapshot(message))]
                             + old(Conversation())
      ensures !IsUserText(old(Snapshot(message))) ==>
        prompt == None && messages == [message] + old(messages)
        && Conversation() == [old(Snapshot(message))] + old(Conversation())
      ensures systemPrompt == old(systemPrompt) && isModelAvailable == old(isModelAvailable)
      ensures Held() == old(Held())
    {
      ghost var before := messages;
      ghost var conv0 := Conversation();
      ghost var snap := Snapshot(message);
      messages := [message] + messages;
      SnapshotsUnchanged(before);
      SnapshotsCons(message, before);
      assert Conversation() == [snap] + conv0;
      assert snap == old(Snapshot(message)) && conv0 == old(Conversation());
      if message.Text? && message.message.msgType == USER {
        var p := GenerateAssistantResponse(response);
        assert p == Prompt([snap] + conv0, systemPrompt);
        assert Conversation() == [TextMsg(ExtractAssistantReply(response), ASSISTANT)] + ([snap] + conv0);
        prompt := Some(p);
      } else {
        prompt := None;
      }
    }

    /** `resetChat`: every message goes. */
    method ResetChat()
      modifies this
      ensures messages == []
      ensures systemPrompt == old(systemPrompt) && isModelAvailable == old(isModelAvailable)
      ensures Held() == old(Held())
    {
      messages := [];
    }

    /** `onCleared`. */
    method OnCleared()
      modifies this
      ensures Held() == Cleared(old(Held()))
      ensures messages == old(messages) && systemPrompt == old(systemPrompt)
      ensures isModelAvailable == old(isModelAvailable)
    {
      if modelContext.Some? {
        if hasEngine {
          unloaded := unloaded + [modelContext.value];
        }
        modelContext := None;
      }
    }
  }
}
