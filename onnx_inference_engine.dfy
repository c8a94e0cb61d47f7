/**
 * The ONNX Runtime GenAI engine: its chat-template tokens, which start as
 * the Phi defaults and may be overwritten from the model directory's
 * `tokenizer_config.json`, its `formatChat`, and the fragment stream of
 * `generateResponse` over an abstract generator.
 */
module OnnxInferenceEngine {
  import opened Wrappers
  import opened Text
  import opened Messages
  import opened PromptTemplate

  /** The BOS value that is treated as "no BOS token". */
  const END_OF_TEXT := "<|endoftext|>"
  const ERROR_PREFIX := "Error during generation: "

  datatype Tokens = Tokens(
    user: string, assistant: string, system: string, end: string,
    bos: string, eos: string)

  /** The field initialisers. */
  const DEFAULT_TOKENS := Tokens("<|user|>", "<|assistant|>", "<|system|>", "<|end|>", "", "")

  /** A JSON file of the model directory, as the loader meets it: absent, or
      present but unreadable or not a JSON object (reading it throws), or
      parsed, each key mapped to the text `optString` gives for its value. */
  datatype JsonFile = Absent | Unreadable | Parsed(entries: map<string, string>)

  /** `optString(key, "")`. */
  function OptString(entries: map<string, string>, key: string): string {
    if key in entries then entries[key] else ""
  }

  /** The tokens after `loadChatTemplateTokens` has read `config`. */
  function AfterLoad(t: Tokens, config: JsonFile): (r: Tokens)
    ensures r.user == t.user && r.assistant == t.assistant
    ensures r.system == t.system && r.end == t.end
    ensures !config.Parsed? ==> r == t
    ensures config.Parsed? ==> r.bos != END_OF_TEXT
    ensures config.Parsed? && "bos_token" in config.entries && config.entries["bos_token"] != END_OF_TEXT
      ==> r.bos == config.entries["bos_token"]
    ensures config.Parsed? && "eos_token" in config.entries ==> r.eos == config.entries["eos_token"]
    ensures config.Parsed? && "bos_token" !in config.entries ==> r.bos == ""
    ensures config.Parsed? && "eos_token" !in config.entries ==> r.eos == ""
  {
    match config
    case Parsed(entries) =>
      var bos := OptString(entries, "bos_token");
      t.(bos := if bos == END_OF_TEXT then "" else bos, eos := OptString(entries, "eos_token"))
    case _ => t
  }

  /** Loading the same configuration again changes nothing. */
  lemma LoadIdempotent(t: Tokens, config: JsonFile)
    ensures AfterLoad(AfterLoad(t, config), config) == AfterLoad(t, config)
  {
  }

  /** The result of loading a parsed configuration does not depend on the
      BOS and EOS tokens held before. */
  lemma LoadOverwrites(t: Tokens, u: Tokens, entries: map<string, string>)
    requires t.user == u.user && t.assistant == u.assistant && t.system == u.system && t.end == u.end
    ensures AfterLoad(t, Parsed(entries)) == AfterLoad(u, Parsed(entries))
  {
  }

  /** Every block ends with the end token alone, without a newline. */
  function EngineTemplate(t: Tokens): Template {
    Template(t.bos, t.system, t.user, t.assistant, t.end, t.eos)
  }

  /** User, assistant and system messages each render as
      `roleToken + "\n" + text + endToken`. */
  lemma EntryShape(t: Tokens, text: string, role: MessageType)
    ensures Entry(EngineTemplate(t), TextMsg(text, role))
      == (match role
          case USER => t.user
          case ASSISTANT => t.assistant
          case SYSTEM => t.system) + "\n" + text + t.end
  {
  }

  /** The BOS token comes first when it is not blank; a non-blank system
      prompt is `systemToken + "\n" + prompt + endToken` right after it; the
      prompt ends in the assistant token, then the EOS token if not blank. */
  lemma FormatShape(t: Tokens, conv: seq<Msg>, systemPrompt: string)
    ensures var p := Render(EngineTemplate(t), conv, systemPrompt);
      && (!IsBlank(t.bos) ==> StartsWith(p, t.bos))
      && (!IsBlank(systemPrompt) ==>
            StartsWith(p, (if IsBlank(t.bos) then "" else t.bos) + t.system + "\n" + systemPrompt + t.end))
      && EndsWith(p, t.assistant + (if IsBlank(t.eos) then "" else t.eos))
  {
    HeaderComesFirst(EngineTemplate(t), conv, systemPrompt);
    EndsWithTail(EngineTemplate(t), conv, systemPrompt);
    var bos := if IsBlank(t.bos) then "" else t.bos;
    assert bos + Block(EngineTemplate(t), t.system, systemPrompt) == bos + t.system + "\n" + systemPrompt + t.end;
  }

  /** With the default tokens, no messages and a blank system prompt the
      prompt is the assistant token alone. */
  lemma DefaultEmptyPrompt(t: Tokens, systemPrompt: string)
    requires t == DEFAULT_TOKENS && IsBlank(systemPrompt)
    ensures Render(EngineTemplate(t), [], systemPrompt) == "<|assistant|>"
  {
    assert IsBlank(t.bos) && IsBlank(t.eos);
    EmptyConversation(EngineTemplate(t), systemPrompt);
  }

  /** What the generator did for one prompt: the tokens it produced, and
      whether it then threw a `GenAIException` (whose message may be null).
      A failure while encoding the prompt is a fault with no tokens; one
      while decoding token k is a fault after the first k tokens. */
  datatype GeneratorRun = GeneratorRun(tokens: seq<int>, fault: Option<Option<string>>)

  /** `tokenizer.decode(intArrayOf(token))` of each token, in order; the
      tokenizer is the parameter `decode`. */
  function Decoded(tokens: seq<int>, decode: int -> string): (r: seq<string>)
    ensures |r| == |tokens|
    ensures forall i :: 0 <= i < |tokens| ==> r[i] == decode(tokens[i])
  {
    if tokens == [] then [] else [decode(tokens[0])] + Decoded(tokens[1..], decode)
  }

  /** The fragment the catch sends for a `GenAIException`. */
  function ErrorFragment(message: Option<string>): string {
    ERROR_PREFIX + message.GetOr("null")
  }

  /** The fragments the flow of `generateResponse` sends for a run. */
  function Sent(run: GeneratorRun, decode: int -> string): seq<string> {
    Decoded(run.tokens, decode) + (if run.fault.Some? then [ErrorFragment(run.fault.value)] else [])
  }

  class OnnxInferenceEngine {
    const modelDirPath: string
    var userToken: string
    var assistantToken: string
    var systemToken: string
    var endToken: string
    var bosToken: string
    var eosToken: string

    function CurrentTokens(): Tokens
      reads this
    {
      Tokens(userToken, assistantToken, systemToken, endToken, bosToken, eosToken)
    }

    /** `init`: the default tokens, then `loadChatTemplateTokens`. Creating
        the model and the tokenizer is outside the model. */
    constructor(modelDirPath: string, tokenizerConfig: JsonFile)
      ensures this.modelDirPath == modelDirPath
      ensures CurrentTokens() == AfterLoad(DEFAULT_TOKENS, tokenizerConfig)
    {
      this.modelDirPath := modelDirPath;
      userToken := "<|user|>";
      assistantToken := "<|assistant|>";
      systemToken := "<|system|>";
      endToken := "<|end|>";
      bosToken := "";
      eosToken := "";
      new;
      LoadChatTemplateTokens(tokenizerConfig);
    }

    /** Reads `tokenizer_config.json` when it exists. A file that cannot be
        read or parsed throws before any token is assigned, and the catch
        keeps the tokens held. `special_tokens_map.json` is read but none of
        its content is used, so it has no effect on the tokens. */
    method LoadChatTemplateTokens(tokenizerConfig: JsonFile)
      modifies this
      ensures CurrentTokens() == AfterLoad(old(CurrentTokens()), tokenizerConfig)
    {
      match tokenizerConfig {
        case Parsed(entries) =>
          bosToken := OptString(entries, "bos_token");
          if bosToken == END_OF_TEXT {
            bosToken := "";
          }
          eosToken := OptString(entries, "eos_token");
        case Unreadable =>
        case Absent =>
      }
    }

    /** `formatChat`, for a conversation with no image or audio message. */
    method FormatChat(messages: seq<Message>, systemPrompt: string) returns (s: string)
      requires AllText(Snapshots(messages))
      ensures s == Render(EngineTemplate(CurrentTokens()), Snapshots(messages), systemPrompt)
    {
      s := BuildWith(EngineTemplate(CurrentTokens()), messages, systemPrompt);
    }

    /** `generateResponse`: each token the generator yields is decoded and
        sent at once; a fault sends one error fragment after them. */
    method GenerateResponse(run: GeneratorRun, decode: int -> string) returns (sent: seq<string>)
      ensures sent == Sent(run, decode)
    {
      sent := [];
      for i := 0 to |run.tokens|
        invariant |sent| == i
        invariant forall j :: 0 <= j < i ==> sent[j] == decode(run.tokens[j])
      {
        var tokenText := decode(run.tokens[i]);
        sent := sent + [tokenText];
      }
      if run.fault.Some? {
        sent := sent + [ErrorFragment(run.fault.value)];
      }
    }
  }

  /** A run sends one fragment per token, plus one when it faults, and
      every fragment before the last one of a faulting run is a decoded
      token. */
  lemma SentShape(run: GeneratorRun, decode: int -> string)
    ensures |Sent(run, decode)| == |run.tokens| + (if run.fault.Some? then 1 else 0)
    ensures forall i :: 0 <= i < |run.tokens| ==> Sent(run, decode)[i] == decode(run.tokens[i])
    ensures run.fault.Some? ==> Sent(run, decode)[|run.tokens|] == ErrorFragment(run.fault.value)
  {
  }

  /** A fault never hides what was generated before it: the fragments of a
      faulting run are those of the same tokens without the fault, then
      exactly one fragment, which starts with the error prefix. */
  lemma FaultAddsOneFragment(run: GeneratorRun, decode: int -> string)
    requires run.fault.Some?
    ensures var sent := Sent(run, decode);
      && sent == Sent(run.(fault := None), decode) + [ErrorFragment(run.fault.value)]
      && StartsWith(sent[|sent| - 1], ERROR_PREFIX)
  {
    var e := ErrorFragment(run.fault.value);
    assert Sent(run.(fault := None), decode) == Decoded(run.tokens, decode) + [];
    assert e[..|ERROR_PREFIX|] == ERROR_PREFIX;
  }

  lemma {:induction false} DecodedAppend(a: seq<int>, b: seq<int>, decode: int -> string)
    ensures Decoded(a + b, decode) == Decoded(a, decode) + Decoded(b, decode)
  {
    if a == [] {
      assert a + b == b;
    } else {
      assert (a + b)[0] == a[0] && (a + b)[1..] == a[1..] + b;
      DecodedAppend(a[1..], b, decode);
    }
  }

  /** Streaming: the fragments sent for the tokens generated so far are the
      start of what the whole run sends, however it goes on and ends. */
  lemma SentExtends(tokens: seq<int>, more: seq<int>, fault: Option<Option<string>>, decode: int -> string)
    ensures var sofar := Sent(GeneratorRun(tokens, None), decode);
      Sent(GeneratorRun(tokens + more, fault), decode)[..|sofar|] == sofar
  {
    DecodedAppend(tokens, more, decode);
    var sofar := Sent(GeneratorRun(tokens, None), decode);
    assert sofar == Decoded(tokens, decode) + [];
  }
}
