/**
 * The chat prompt the view models (`buildPrompt`) and the inference engines
 * (`formatChat`) build from a conversation stored newest-first: an optional
 * BOS token, an optional system block, one block per message oldest-first,
 * the assistant token that asks for the reply, and an optional EOS token.
 * The four builders differ only in the delimiters, collected in `Template`.
 */
module PromptTemplate {
  import opened Text
  import opened Messages

  /** One block is `token + "\n" + text + blockEnd`. */
  datatype Template = Template(
    bos: string,
    systemToken: string,
    userToken: string,
    assistantToken: string,
    blockEnd: string,
    eos: string)

  function RoleToken(t: Template, role: MessageType): string {
    match role
    case USER => t.userToken
    case ASSISTANT => t.assistantToken
    case SYSTEM => t.systemToken
  }

  function Block(t: Template, token: string, text: string): string {
    token + "\n" + text + t.blockEnd
  }

  /** A text message's block; image and audio messages contribute nothing. */
  function Entry(t: Template, m: Msg): string {
    match m
    case TextMsg(text, role) => Block(t, RoleToken(t, role), text)
    case _ => ""
  }

  /** The messages' blocks, oldest (last in the list) first. */
  function Body(t: Template, conv: seq<Msg>): string
    decreases |conv|
  {
    if conv == [] then "" else Body(t, conv[1..]) + Entry(t, conv[0])
  }

  /** The BOS token if it is not blank, then the system block if the system
      prompt is not blank. */
  function Header(t: Template, systemPrompt: string): string {
    (if IsBlank(t.bos) then "" else t.bos)
    + (if IsBlank(systemPrompt) then "" else Block(t, t.systemToken, systemPrompt))
  }

  /** The assistant token, then the EOS token if it is not blank. */
  function Tail(t: Template): string {
    t.assistantToken + (if IsBlank(t.eos) then "" else t.eos)
  }

  function Render(t: Template, conv: seq<Msg>, systemPrompt: string): string {
    Header(t, systemPrompt) + Body(t, conv) + Tail(t)
  }

  /** The `StringBuilder` loop shared by every builder: header, then the
      messages of `conv.reversed()`, then the tail. */
  method BuildWith(t: Template, conv: seq<Message>, systemPrompt: string) returns (s: string)
    ensures s == Render(t, Snapshots(conv), systemPrompt)
  {
    ghost var msgs := Snapshots(conv);
    var sb := "";
    if !IsBlank(t.bos) {
      sb := sb + t.bos;
    }
    if !IsBlank(systemPrompt) {
      sb := sb + Block(t, t.systemToken, systemPrompt);
    }
    assert sb == Header(t, systemPrompt);
    ghost var header := sb;
    var k := |conv|;
    while k > 0
      invariant 0 <= k <= |conv|
      invariant sb == header + Body(t, msgs[k..])
    {
      k := k - 1;
      assert msgs[k..][1..] == msgs[k + 1..];
      assert Body(t, msgs[k..]) == Body(t, msgs[k + 1..]) + Entry(t, msgs[k]);
      assert msgs[k] == Snapshot(conv[k]);
      var block := "";
      match conv[k] {
        case Text(m) =>
          block := Block(t, RoleToken(t, m.msgType), m.text);
        case Image(_, _) =>
        case Audio(_, _) =>
      }
      assert block == Entry(t, msgs[k]);
      ghost var rest := Body(t, msgs[k + 1..]);
      AppendAssociates(header, rest, block);
      sb := sb + block;
    }
    assert msgs[0..] == msgs;
    ghost var front := sb;
    assert front == Header(t, systemPrompt) + Body(t, msgs);
    sb := sb + t.assistantToken;
    if !IsBlank(t.eos) {
      AppendAssociates(front, t.assistantToken, t.eos);
      sb := sb + t.eos;
    } else {
      assert Tail(t) == t.assistantToken;
    }
    assert sb == front + Tail(t);
    assert sb == Render(t, msgs, systemPrompt);
    assert msgs == Snapshots(conv);
    s := sb;
  }

  // ---------------------------------------------------------------- properties

  function Concat(parts: seq<string>): string
    decreases |parts|
  {
    if parts == [] then "" else parts[0] + Concat(parts[1..])
  }

  lemma {:induction false} ConcatSnoc(parts: seq<string>, x: string)
    ensures Concat(parts + [x]) == Concat(parts) + x
    decreases |parts|
  {
    if parts == [] {
      assert [] + [x] == [x];
    } else {
      assert (parts + [x])[1..] == parts[1..] + [x];
      ConcatSnoc(parts[1..], x);
    }
  }

  /** Accumulating the parts one at a time: the prefix up to `i + 1` is the
      prefix up to `i` with the next part appended. */
  lemma ConcatPrefixStep(parts: seq<string>, i: nat)
    requires i < |parts|
    ensures Concat(parts[..i + 1]) == Concat(parts[..i]) + parts[i]
  {
    assert parts[..i + 1] == parts[..i] + [parts[i]];
    ConcatSnoc(parts[..i], parts[i]);
  }

  /** The blocks in the order they are written: the list reversed. */
  function OldestFirst(t: Template, conv: seq<Msg>): (r: seq<string>)
    ensures |r| == |conv|
  {
    seq(|conv|, j requires 0 <= j < |conv| => Entry(t, conv[|conv| - 1 - j]))
  }

  /** The body is the concatenation of the messages' blocks, oldest first. */
  lemma {:induction false} BodyIsOldestFirst(t: Template, conv: seq<Msg>)
    ensures Body(t, conv) == Concat(OldestFirst(t, conv))
    decreases |conv|
  {
    if conv != [] {
      BodyIsOldestFirst(t, conv[1..]);
      assert OldestFirst(t, conv) == OldestFirst(t, conv[1..]) + [Entry(t, conv[0])];
      ConcatSnoc(OldestFirst(t, conv[1..]), Entry(t, conv[0]));
    }
  }

  /** Every prompt ends with the tail. */
  lemma EndsWithTail(t: Template, conv: seq<Msg>, systemPrompt: string)
    ensures EndsWith(Render(t, conv, systemPrompt), Tail(t))
  {
    var r := Render(t, conv, systemPrompt);
    assert r == (Header(t, systemPrompt) + Body(t, conv)) + Tail(t);
  }

  /** A newer message adds exactly its block in front of the tail. */
  lemma PrependMessage(t: Template, m: Msg, conv: seq<Msg>, systemPrompt: string)
    ensures var before := Render(t, conv, systemPrompt);
      |Tail(t)| <= |before| &&
      Render(t, [m] + conv, systemPrompt) == before[..|before| - |Tail(t)|] + Entry(t, m) + Tail(t)
  {
    var before := Render(t, conv, systemPrompt);
    var front := Header(t, systemPrompt) + Body(t, conv);
    assert before == front + Tail(t);
    assert before[..|before| - |Tail(t)|] == front;
    assert ([m] + conv)[1..] == conv;
  }

  /** A blank system prompt is the same as none: no system block. */
  lemma BlankSystemPromptOmitted(t: Template, conv: seq<Msg>, systemPrompt: string)
    requires IsBlank(systemPrompt)
    ensures Render(t, conv, systemPrompt) == Render(t, conv, "")
  {
  }

  /** Without BOS and EOS tokens a prompt is the optional system block, the
      body and the assistant token. */
  lemma PlainRender(t: Template, conv: seq<Msg>, systemPrompt: string)
    requires IsBlank(t.bos) && IsBlank(t.eos)
    ensures !IsBlank(systemPrompt) ==>
      Render(t, conv, systemPrompt) == Block(t, t.systemToken, systemPrompt) + Body(t, conv) + t.assistantToken
    ensures IsBlank(systemPrompt) ==> Render(t, conv, systemPrompt) == Body(t, conv) + t.assistantToken
  {
    assert Tail(t) == t.assistantToken + "";
    if IsBlank(systemPrompt) {
      assert Header(t, systemPrompt) == "" + "";
    } else {
      assert Header(t, systemPrompt) == "" + Block(t, t.systemToken, systemPrompt);
    }
  }

  /** A non-blank BOS token comes first; a non-blank system prompt gives a
      system block right after it. */
  lemma HeaderComesFirst(t: Template, conv: seq<Msg>, systemPrompt: string)
    ensures !IsBlank(t.bos) ==> StartsWith(Render(t, conv, systemPrompt), t.bos)
    ensures !IsBlank(systemPrompt) ==>
      StartsWith(Render(t, conv, systemPrompt),
                 (if IsBlank(t.bos) then "" else t.bos) + Block(t, t.systemToken, systemPrompt))
  {
    var r := Render(t, conv, systemPrompt);
    var h := Header(t, systemPrompt);
    assert r == h + (Body(t, conv) + Tail(t));
    if !IsBlank(t.bos) {
      assert h == t.bos + (if IsBlank(systemPrompt) then "" else Block(t, t.systemToken, systemPrompt));
      assert r[..|t.bos|] == t.bos;
    }
    if !IsBlank(systemPrompt) {
      assert r[..|h|] == h;
    }
  }

  /** With no messages the prompt is only header and tail. */
  lemma EmptyConversation(t: Template, systemPrompt: string)
    ensures Render(t, [], systemPrompt) == Header(t, systemPrompt) + Tail(t)
  {
  }
}
