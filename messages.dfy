/**
 * The conversation's messages. A text message is an object whose `text` the
 * streaming reply rewrites in place; image and audio messages are values.
 * `Msg` is the value a message has at one moment, which the prompt builders
 * read.
 */
module Messages {

  datatype MessageType = SYSTEM | ASSISTANT | USER

  class TextMessage {
    var text: string
    const msgType: MessageType

    constructor(initialText: string, msgType: MessageType)
      ensures text == initialText && this.msgType == msgType
    {
      text := initialText;
      this.msgType := msgType;
    }
  }

  datatype Message =
    | Text(message: TextMessage)
    | Image(imageUrl: string, imageType: MessageType)
    | Audio(audioUrl: string, audioType: MessageType)

  /** A message's content at one moment. */
  datatype Msg =
    | TextMsg(text: string, role: MessageType)
    | ImageMsg(imageUrl: string, role: MessageType)
    | AudioMsg(audioUrl: string, role: MessageType)

  /** The text-message objects of a conversation. */
  function TextObjects(conv: seq<Message>): set<TextMessage> {
    set i | 0 <= i < |conv| && conv[i].Text? :: conv[i].message
  }

  function Snapshot(m: Message): Msg
    reads if m.Text? then {m.message} else {}
  {
    match m
    case Text(t) => TextMsg(t.text, t.msgType)
    case Image(url, ty) => ImageMsg(url, ty)
    case Audio(url, ty) => AudioMsg(url, ty)
  }

  /** The conversation's content at one moment, message by message. */
  function Snapshots(conv: seq<Message>): (r: seq<Msg>)
    reads TextObjects(conv)
  {
    seq(|conv|, i requires 0 <= i < |conv| reads TextObjects(conv) => Snapshot(conv[i]))
  }

  /** The content of a conversation depends only on its text objects' texts. */
  twostate lemma SnapshotsUnchanged(conv: seq<Message>)
    requires forall i :: 0 <= i < |conv| && conv[i].Text? ==> unchanged(conv[i].message)
    ensures Snapshots(conv) == old(Snapshots(conv))
  {
  }

  /** A message put in front of a conversation comes first in its content. */
  lemma SnapshotsCons(m: Message, conv: seq<Message>)
    ensures Snapshots([m] + conv) == [Snapshot(m)] + Snapshots(conv)
  {
    assert TextObjects(conv) <= TextObjects([m] + conv) by {
      forall o | o in TextObjects(conv) ensures o in TextObjects([m] + conv) {
        var i :| 0 <= i < |conv| && conv[i].Text? && conv[i].message == o;
        assert ([m] + conv)[i + 1] == conv[i];
      }
    }
  }

  /** A USER text message: what `sendMessage` answers with a generation. */
  predicate IsUserText(m: Msg) {
    m.TextMsg? && m.role == USER
  }

  predicate IsText(m: Msg) {
    m.TextMsg?
  }

  /** No image or audio message: what the engines' `formatChat` can render
      (they answer both with `TODO()`). */
  predicate AllText(conv: seq<Msg>) {
    forall i :: 0 <= i < |conv| ==> IsText(conv[i])
  }
}
