/**
 * `Llama.generate` from the llama.cpp binding: open a native context, feed it
 * the prompt's tokens, then sample up to `maxTokens` tokens, stopping at the
 * end-of-sequence token, emitting each token's text and feeding the token
 * back; the context is freed however the loop ends.
 *
 * The native library is an oracle: `contextPtr` is what `newContext`
 * returned, `promptTokens` what `tokenize` returned, `sample(i)` the token
 * the i-th call of `sample` returns, `eos` what `tokenEOS` returns and
 * `piece(t)` what `tokenToPiece` returns. `cancelAt` is the emission, if
 * any, at which the flow's collector throws (for example a `take(n)`
 * downstream).
 */
module Llama {
  import opened Wrappers

  /** The native calls whose order matters, in the order they are made. */
  datatype Event =
    | Eval(tokens: seq<int>)
    | Emit(piece: string)
    | Free(context: int)

  datatype Outcome =
    | Completed
    /** `newContext` returned 0: `IllegalStateException("Failed to create llama context")`. */
    | NoContext
    /** The collector threw while receiving an emitted piece. */
    | CollectorThrew

  datatype Run = Run(events: seq<Event>, outcome: Outcome)

  /** The sampling loop from its `i`-th iteration on. */
  function Loop(i: nat, maxTokens: int, sample: nat -> int, eos: int, piece: int -> string,
                cancelAt: Option<nat>): Run
    decreases maxTokens - i
  {
    if maxTokens <= i then Run([], Completed)
    else if sample(i) == eos then Run([], Completed)
    else if cancelAt == Some(i) then Run([Emit(piece(sample(i)))], CollectorThrew)
    else
      var rest := Loop(i + 1, maxTokens, sample, eos, piece, cancelAt);
      Run([Emit(piece(sample(i))), Eval([sample(i)])] + rest.events, rest.outcome)
  }

  /** The whole flow: no native call without a context; otherwise the prompt
      is evaluated, the loop runs, and the context is freed. */
  function Generation(contextPtr: int, promptTokens: seq<int>, maxTokens: int, sample: nat -> int,
                      eos: int, piece: int -> string, cancelAt: Option<nat>): Run
  {
    if contextPtr == 0 then Run([], NoContext)
    else
      var loop := Loop(0, maxTokens, sample, eos, piece, cancelAt);
      Run([Eval(promptTokens)] + loop.events + [Free(contextPtr)], loop.outcome)
  }

  /** `generate`, collected. */
  method Generate(contextPtr: int, promptTokens: seq<int>, maxTokens: int, sample: nat -> int,
                  eos: int, piece: int -> string, cancelAt: Option<nat>) returns (events: seq<Event>, outcome: Outcome)
    ensures Run(events, outcome) == Generation(contextPtr, promptTokens, maxTokens, sample, eos, piece, cancelAt)
  {
    if contextPtr == 0 {
      return [], NoContext;
    }
    ghost var whole := Loop(0, maxTokens, sample, eos, piece, cancelAt);
    events := [Eval(promptTokens)];
    outcome := Completed;
    var i := 0;
    while i < maxTokens
      invariant 0 <= i
      invariant [Eval(promptTokens)] + whole.events
             == events + Loop(i, maxTokens, sample, eos, piece, cancelAt).events
      invariant whole.outcome == Loop(i, maxTokens, sample, eos, piece, cancelAt).outcome
      invariant outcome == Completed
      decreases maxTokens - i
    {
      var nextToken := sample(i);
      if nextToken == eos {
        break;
      }
      events := events + [Emit(piece(nextToken))];
      if cancelAt == Some(i) {
        outcome := CollectorThrew;
        break;
      }
      events := events + [Eval([nextToken])];
      i := i + 1;
    }
    events := events + [Free(contextPtr)];
  }

  // ---------------------------------------------------------------- properties

  /** The pieces a run emits, in order. */
  function Pieces(events: seq<Event>): (r: seq<string>)
    ensures |r| <= |events|
  {
    if events == [] then []
    else (if events[0].Emit? then [events[0].piece] else []) + Pieces(events[1..])
  }

  lemma {:induction false} PiecesAppend(a: seq<Event>, b: seq<Event>)
    ensures Pieces(a + b) == Pieces(a) + Pieces(b)
    decreases |a|
  {
    if a != [] {
      assert (a + b)[1..] == a[1..] + b;
      PiecesAppend(a[1..], b);
    } else {
      assert a + b == b;
    }
  }

  /** The `k`-th piece is the text of the `k`-th sample, and none of those
      samples was the end-of-sequence token. */
  predicate EmitsSamples(pieces: seq<string>, i: nat, sample: nat -> int, eos: int, piece: int -> string) {
    forall k :: 0 <= k < |pieces| ==> EmitsSample(pieces[k], i + k, sample, eos, piece)
  }

  predicate EmitsSample(p: string, j: nat, sample: nat -> int, eos: int, piece: int -> string) {
    sample(j) != eos && p == piece(sample(j))
  }

  lemma EmitsSamplesCons(tail: seq<string>, i: nat, sample: nat -> int, eos: int, piece: int -> string)
    requires sample(i) != eos && EmitsSamples(tail, i + 1, sample, eos, piece)
    ensures EmitsSamples([piece(sample(i))] + tail, i, sample, eos, piece)
  {
    var ps := [piece(sample(i))] + tail;
    forall k | 0 <= k < |ps| ensures EmitsSample(ps[k], i + k, sample, eos, piece) {
      if k > 0 {
        assert EmitsSample(tail[k - 1], i + 1 + (k - 1), sample, eos, piece);
        assert ps[k] == tail[k - 1];
      }
    }
  }

  /** One iteration that neither stops nor throws emits one piece and
      leaves the outcome to the rest of the loop. */
  lemma LoopStep(i: nat, maxTokens: int, sample: nat -> int, eos: int, piece: int -> string,
                 cancelAt: Option<nat>)
    requires i < maxTokens && sample(i) != eos && cancelAt != Some(i)
    ensures Pieces(Loop(i, maxTokens, sample, eos, piece, cancelAt).events)
         == [piece(sample(i))] + Pieces(Loop(i + 1, maxTokens, sample, eos, piece, cancelAt).events)
    ensures Loop(i, maxTokens, sample, eos, piece, cancelAt).outcome
         == Loop(i + 1, maxTokens, sample, eos, piece, cancelAt).outcome
  {
    var rest := Loop(i + 1, maxTokens, sample, eos, piece, cancelAt);
    var head := [Emit(piece(sample(i))), Eval([sample(i)])];
    PiecesAppend(head, rest.events);
    assert Pieces(head) == [piece(sample(i))] by {
      assert head[1..] == [Eval([sample(i)])];
      assert Pieces(head[1..]) == [];
    }
  }

  /** From iteration `i` on, the loop emits the texts of consecutive samples,
      never the end-of-sequence token, and never more than the iterations left. */
  lemma {:induction false} LoopEmits(i: nat, maxTokens: int, sample: nat -> int, eos: int,
                                     piece: int -> string, cancelAt: Option<nat>)
    ensures EmitsSamples(Pieces(Loop(i, maxTokens, sample, eos, piece, cancelAt).events), i, sample, eos, piece)
    ensures |Pieces(Loop(i, maxTokens, sample, eos, piece, cancelAt).events)| <= if i <= maxTokens then maxTokens - i else 0
    decreases maxTokens - i
  {
    if maxTokens <= i || sample(i) == eos {
    } else if cancelAt == Some(i) {
      assert Pieces(Loop(i, maxTokens, sample, eos, piece, cancelAt).events) == [piece(sample(i))];
    } else {
      LoopStep(i, maxTokens, sample, eos, piece, cancelAt);
      LoopEmits(i + 1, maxTokens, sample, eos, piece, cancelAt);
      EmitsSamplesCons(Pieces(Loop(i + 1, maxTokens, sample, eos, piece, cancelAt).events), i, sample, eos, piece);
    }
  }

  /** The loop ends early only at the end-of-sequence token or when the
      collector throws, and then on the last emitted piece. */
  lemma {:induction false} LoopStops(i: nat, maxTokens: int, sample: nat -> int, eos: int,
                                     piece: int -> string, cancelAt: Option<nat>)
    ensures var n := |Pieces(Loop(i, maxTokens, sample, eos, piece, cancelAt).events)|;
      && (Loop(i, maxTokens, sample, eos, piece, cancelAt).outcome == Completed && i + n < maxTokens ==>
            sample(i + n) == eos)
      && (Loop(i, maxTokens, sample, eos, piece, cancelAt).outcome == CollectorThrew ==>
            cancelAt == Some(i + n - 1))
      && Loop(i, maxTokens, sample, eos, piece, cancelAt).outcome != NoContext
    decreases maxTokens - i
  {
    if maxTokens <= i || sample(i) == eos {
    } else if cancelAt == Some(i) {
      assert Pieces(Loop(i, maxTokens, sample, eos, piece, cancelAt).events) == [piece(sample(i))];
    } else {
      LoopStep(i, maxTokens, sample, eos, piece, cancelAt);
      LoopStops(i + 1, maxTokens, sample, eos, piece, cancelAt);
    }
  }

  /** Every emission is followed by the evaluation of its token, except an
      emission on which the collector threw, which ends the run. */
  predicate FeedsBack(r: Run, piece: int -> string) {
    forall k :: 0 <= k < |r.events| && r.events[k].Emit? ==>
      || (&& k + 1 < |r.events| && r.events[k + 1].Eval? && |r.events[k + 1].tokens| == 1
          && r.events[k].piece == piece(r.events[k + 1].tokens[0]))
      || (k + 1 == |r.events| && r.outcome == CollectorThrew)
  }

  predicate NeverFrees(events: seq<Event>) {
    forall k :: 0 <= k < |events| ==> !events[k].Free?
  }

  /** The loop feeds every emitted token back, and it never frees the context. */
  lemma {:induction false} LoopFeedsBack(i: nat, maxTokens: int, sample: nat -> int, eos: int,
                                         piece: int -> string, cancelAt: Option<nat>)
    ensures FeedsBack(Loop(i, maxTokens, sample, eos, piece, cancelAt), piece)
    ensures NeverFrees(Loop(i, maxTokens, sample, eos, piece, cancelAt).events)
    decreases maxTokens - i
  {
    if i < maxTokens && sample(i) != eos && cancelAt != Some(i) {
      LoopFeedsBack(i + 1, maxTokens, sample, eos, piece, cancelAt);
      var rest := Loop(i + 1, maxTokens, sample, eos, piece, cancelAt);
      var r := Loop(i, maxTokens, sample, eos, piece, cancelAt);
      assert r.events == [Emit(piece(sample(i))), Eval([sample(i)])] + rest.events;
      assert r.outcome == rest.outcome;
      forall k | 2 <= k < |r.events| ensures r.events[k] == rest.events[k - 2] { }
    }
  }

  /** Without a context nothing is called and nothing is emitted. */
  lemma NoContextFailsFirst(promptTokens: seq<int>, maxTokens: int, sample: nat -> int,
                            eos: int, piece: int -> string, cancelAt: Option<nat>)
    ensures Generation(0, promptTokens, maxTokens, sample, eos, piece, cancelAt) == Run([], NoContext)
  {
  }

  /** With a context, the prompt is evaluated first, the context is freed
      exactly once and last, at most `maxTokens` pieces come out, each the text
      of a sample that was not the end-of-sequence token, and the loop stops
      early only at that token or when the collector throws. */
  lemma GenerationShape(contextPtr: int, promptTokens: seq<int>, maxTokens: int, sample: nat -> int,
                        eos: int, piece: int -> string, cancelAt: Option<nat>)
    requires contextPtr != 0
    ensures var r := Generation(contextPtr, promptTokens, maxTokens, sample, eos, piece, cancelAt);
      && |r.events| >= 2
      && r.events[0] == Eval(promptTokens)
      && r.events[|r.events| - 1] == Free(contextPtr)
      && (forall k :: 0 <= k < |r.events| - 1 ==> !r.events[k].Free?)
      && |Pieces(r.events)| <= (if maxTokens < 0 then 0 else maxTokens)
      && EmitsSamples(Pieces(r.events), 0, sample, eos, piece)
      && (r.outcome == Completed && |Pieces(r.events)| < maxTokens ==> sample(|Pieces(r.events)|) == eos)
      && r.outcome != NoContext
  {
    var loop := Loop(0, maxTokens, sample, eos, piece, cancelAt);
    var r := Generation(contextPtr, promptTokens, maxTokens, sample, eos, piece, cancelAt);
    LoopEmits(0, maxTokens, sample, eos, piece, cancelAt);
    LoopStops(0, maxTokens, sample, eos, piece, cancelAt);
    LoopFeedsBack(0, maxTokens, sample, eos, piece, cancelAt);
    assert r.events == [Eval(promptTokens)] + loop.events + [Free(contextPtr)];
    PiecesAppend([Eval(promptTokens)], loop.events);
    PiecesAppend([Eval(promptTokens)] + loop.events, [Free(contextPtr)]);
    assert Pieces([Eval(promptTokens)]) == [];
    assert Pieces([Free(contextPtr)]) == [];
    assert Pieces(r.events) == Pieces(loop.events);
    forall k | 1 <= k < |r.events| - 1 ensures r.events[k] == loop.events[k - 1] { }
  }
}
