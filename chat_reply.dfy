/**
 * `cleanResponse` and `extractAssistantReply`, identical in both view
 * models: keep the text after the last assistant marker, delete the three
 * chat markers (each in one left-to-right `replace` pass), then trim.
 */
module ChatReply {
  import opened Text

  const ASSISTANT_MARKER := "<|assistant|>"
  const USER_MARKER := "<|user|>"
  const END_MARKER := "<|end|>"

  /** `cleanResponse`: the result neither starts nor ends with whitespace. */
  function CleanResponse(response: string): (r: string)
    ensures r == [] || (!IsWhitespace(r[0]) && !IsWhitespace(r[|r| - 1]))
  {
    Trim(RemoveAll(RemoveAll(RemoveAll(response, ASSISTANT_MARKER), USER_MARKER), END_MARKER))
  }

  /** `extractAssistantReply`: without a marker the whole text is cleaned. */
  function ExtractAssistantReply(fullText: string): (r: string)
    ensures !Contains(fullText, ASSISTANT_MARKER) ==> r == CleanResponse(fullText)
  {
    var index := LastIndexOf(fullText, ASSISTANT_MARKER);
    var reply := if index != -1 then fullText[index + |ASSISTANT_MARKER|..] else fullText;
    CleanResponse(reply)
  }

  /** Before any text has arrived the reply is empty. */
  lemma ExtractEmpty()
    ensures ExtractAssistantReply("") == ""
  {
    assert !Contains("", ASSISTANT_MARKER);
    assert RemoveAll("", ASSISTANT_MARKER) == "";
    assert RemoveAll("", USER_MARKER) == "";
    assert RemoveAll("", END_MARKER) == "";
  }

  /** The marker cannot overlap itself: its first character occurs nowhere else in it. */
  lemma MarkerHasNoBorder(s: string, i: int, j: int)
    requires OccursAt(s, ASSISTANT_MARKER, i) && i < j < i + |ASSISTANT_MARKER|
    ensures !OccursAt(s, ASSISTANT_MARKER, j)
  {
    assert s[j] == ASSISTANT_MARKER[j - i] != '<';
  }

  /** The reply is what follows the last marker: for any split of the text
      as `p + marker + rest` with no marker in `rest`, it is `rest`, cleaned. */
  lemma ExtractAfterLastMarker(p: string, rest: string)
    requires !Contains(rest, ASSISTANT_MARKER)
    ensures ExtractAssistantReply(p + ASSISTANT_MARKER + rest) == CleanResponse(rest)
  {
    var m := ASSISTANT_MARKER;
    var s := p + m + rest;
    assert s[|p|..|p| + |m|] == m;
    assert OccursAt(s, m, |p|);
    forall j | |p| < j
      ensures !OccursAt(s, m, j)
    {
      if j < |p| + |m| {
        MarkerHasNoBorder(s, |p|, j);
      } else if OccursAt(s, m, j) {
        var k := j - |p| - |m|;
        assert s[j..j + |m|] == rest[k..k + |m|];
        assert OccursAt(rest, m, k);
      }
    }
    var index := LastIndexOf(s, m);
    assert index == |p|;
    assert s[|p| + |m|..] == rest;
  }

  /** Cleaning is stable under trimming: the reply carries no outer whitespace. */
  lemma CleanResponseIsTrimmed(response: string)
    ensures Trim(CleanResponse(response)) == CleanResponse(response)
  {
    TrimIdempotent(RemoveAll(RemoveAll(RemoveAll(response, ASSISTANT_MARKER), USER_MARKER), END_MARKER));
  }

  /** For a text without any of the markers, cleaning is trimming. */
  lemma CleanMarkerFree(response: string)
    requires !Contains(response, ASSISTANT_MARKER)
    requires !Contains(response, USER_MARKER)
    requires !Contains(response, END_MARKER)
    ensures CleanResponse(response) == Trim(response)
  {
    RemoveAllWithoutOccurrence(response, ASSISTANT_MARKER);
    RemoveAllWithoutOccurrence(response, USER_MARKER);
    RemoveAllWithoutOccurrence(response, END_MARKER);
  }

  /** No character of `s` opens a marker. */
  predicate AngleFree(s: string) {
    forall i :: 0 <= i < |s| ==> s[i] != '<'
  }

  /** A marker longer than the end marker cannot occur in an angle-free text
      closed by the end marker. */
  lemma LongMarkerAbsent(x: string, p: string)
    requires AngleFree(x) && |p| > |END_MARKER| && p[0] == '<'
    ensures !Contains(x + END_MARKER, p)
  {
    var s := x + END_MARKER;
    forall i | 0 <= i <= |s| ensures !OccursAt(s, p, i) {
      if i < |x| {
        assert s[i] == x[i];
      }
    }
  }

  /** A reply closed by the end marker, and with no marker of its own, cleans
      to its trimmed text. */
  lemma CleanClosedReply(x: string)
    requires AngleFree(x)
    ensures CleanResponse(x + END_MARKER) == Trim(x)
  {
    var s := x + END_MARKER;
    LongMarkerAbsent(x, ASSISTANT_MARKER);
    RemoveAllWithoutOccurrence(s, ASSISTANT_MARKER);
    LongMarkerAbsent(x, USER_MARKER);
    RemoveAllWithoutOccurrence(s, USER_MARKER);
    var s0 := x + END_MARKER + "";
    assert s0 == s;
    forall i | 0 <= i < |x| ensures !OccursAt(s0, END_MARKER, i) {
      assert s0[i] == x[i];
    }
    RemoveAllUpTo(x, END_MARKER, "");
    assert RemoveAll(s, END_MARKER) == x;
  }

  /** One exchange, a user turn and then a closed assistant turn, yields the
      assistant's text, trimmed. */
  lemma ExtractOneTurn(question: string, answer: string)
    requires AngleFree(answer)
    ensures ExtractAssistantReply(USER_MARKER + question + END_MARKER + ASSISTANT_MARKER + answer + END_MARKER)
         == Trim(answer)
  {
    var p := USER_MARKER + question + END_MARKER;
    var rest := answer + END_MARKER;
    assert p + ASSISTANT_MARKER + rest
        == USER_MARKER + question + END_MARKER + ASSISTANT_MARKER + answer + END_MARKER;
    LongMarkerAbsent(answer, ASSISTANT_MARKER);
    ExtractAfterLastMarker(p, rest);
    CleanClosedReply(answer);
  }

  /** `<|user|>hi<|end|><|assistant|>hello<|end|>` yields `hello`. */
  lemma ExtractExample(question: string, answer: string)
    requires question == "hi" && answer == "hello"
    ensures ExtractAssistantReply(USER_MARKER + question + END_MARKER + ASSISTANT_MARKER + answer + END_MARKER)
         == answer
  {
    assert AngleFree(answer);
    assert Trim(answer) == answer by {
      TrimPadded([], answer, []);
      assert [] + answer + [] == answer;
    }
    ExtractOneTurn(question, answer);
  }
}
