/**
 Greedy autoregressive decoding around an opaque Transformer network.

 The network and the tokenizers are collaborators whose insides are not part of
 this model: a tokenizer is its vocabulary size plus opaque `encode`/`decode`
 functions, and the network is a function from the encoder ids, the decoder ids
 generated so far, the training flag and the three masks to the id of the
 largest last-position logit together with the attention weights of that call.
 */
module Decoding {
  import opened Wrappers
  import Masks

  /** A subword tokenizer: vocabulary size and opaque text/id conversions. */
  datatype Tokenizer = Tokenizer(vocabSize: nat, encode: string -> seq<int>, decode: seq<int> -> string)

  /** What one network call yields: the greedy next id and the call's attention weights. */
  datatype Step<W> = Step(predictedId: nat, attention: W)

  /** The trained Transformer: (encoder ids, decoder ids, training, masks) to one step. */
  type Network<W> = (seq<int>, seq<int>, bool, Masks.MaskSet) -> Step<W>

  /** The error the source raises when the decode loop never ran (the weights stay unbound). */
  datatype EvalError = AttentionUnbound

  /** A successful decode: the generated ids (start id first) and the last call's weights. */
  datatype Evaluation<W> = Evaluation(ids: seq<int>, attention: W)

  /** The start sentinel of a vocabulary is its size, the end sentinel the next id. */
  function StartId(vocabSize: nat): (id: int) { vocabSize }

  function EndId(vocabSize: nat): (id: int) { vocabSize + 1 }

  /** The encoder input: the encoded sentence between the source start and end sentinels. */
  function EncoderInput(src: Tokenizer, sentence: string): (e: seq<int>)
    ensures |e| == |src.encode(sentence)| + 2
    ensures e[0] == StartId(src.vocabSize) && e[|e| - 1] == EndId(src.vocabSize)
    ensures e[1..|e| - 1] == src.encode(sentence)
  {
    [StartId(src.vocabSize)] + src.encode(sentence) + [EndId(src.vocabSize)]
  }

  /**
   The last encoder position (the end sentinel) is never padding-masked, and
   the first (the start sentinel) is not either once the vocabulary is non-empty.
   */
  lemma EncoderSentinelsVisible(src: Tokenizer, sentence: string)
    ensures var m := Masks.PaddingMask(EncoderInput(src, sentence));
            m[|m| - 1] == 0 && (src.vocabSize > 0 ==> m[0] == 0)
  {
  }

  /** One network call in inference mode on the current decoder ids, masks rebuilt from them. */
  function NextStep<W>(net: Network<W>, enc: seq<int>, out: seq<int>): (step: Step<W>)
  {
    net(enc, out, false, Masks.CreateMasks(enc, out))
  }

  /** Every id after the first is the network's prediction on the ids before it. */
  ghost predicate GrowsByPrediction<W>(net: Network<W>, enc: seq<int>, ids: seq<int>)
  {
    forall k :: 1 <= k < |ids| ==> ids[k] == NextStep(net, enc, ids[..k]).predictedId
  }

  /** No id after the first is the end sentinel. */
  predicate AvoidsEnd(endId: int, ids: seq<int>)
  {
    forall k :: 1 <= k < |ids| ==> ids[k] != endId
  }

  /**
   Declarative meaning of greedy decoding with at most `maxLength` calls: the
   ids start with the start sentinel, grow by the network's predictions, hold at
   most maxLength + 1 ids, and stopped early only because the network predicted
   the end sentinel.
   */
  ghost predicate IsGreedyDecoding<W>(net: Network<W>, enc: seq<int>, startId: int, endId: int,
                                      maxLength: nat, ids: seq<int>)
  {
    && 1 <= |ids| <= maxLength + 1
    && ids[0] == startId
    && GrowsByPrediction(net, enc, ids)
    && AvoidsEnd(endId, ids)
    && (|ids| <= maxLength ==> NextStep(net, enc, ids).predictedId == endId)
  }

  /**
   The decode loop. Calls the network at most `maxLength` times; stops before
   appending when it predicts the target end sentinel. When the loop body never
   runs (maxLength <= 0) the source fails reading the unbound attention weights.
   `calls` counts the network calls.
   */
  method Evaluate<W(==)>(sentence: string, src: Tokenizer, tgt: Tokenizer, maxLength: int, net: Network<W>)
    returns (r: Result<Evaluation<W>, EvalError>, ghost calls: nat)
    ensures r.Failure? <==> maxLength <= 0
    ensures r.Failure? ==> r.error == AttentionUnbound && calls == 0
    ensures r.Success? ==>
              IsGreedyDecoding(net, EncoderInput(src, sentence), StartId(tgt.vocabSize),
                               EndId(tgt.vocabSize), maxLength, r.value.ids)
    ensures r.Success? ==> EndId(tgt.vocabSize) !in r.value.ids
    ensures r.Success? && |r.value.ids| <= maxLength ==>
              calls == |r.value.ids| &&
              r.value.attention == NextStep(net, EncoderInput(src, sentence), r.value.ids).attention
    ensures r.Success? && |r.value.ids| == maxLength + 1 ==>
              calls == maxLength &&
              r.value.attention == NextStep(net, EncoderInput(src, sentence), r.value.ids[..maxLength]).attention
  {
    var enc := EncoderInput(src, sentence);
    var endId := EndId(tgt.vocabSize);
    var output: seq<int> := [StartId(tgt.vocabSize)];
    var attention: Option<W> := None;
    var i := 0;
    calls := 0;
    while i < maxLength
      invariant 0 <= i && (maxLength > 0 ==> i <= maxLength) && (maxLength <= 0 ==> i == 0)
      invariant calls == i
      invariant |output| == i + 1 && output[0] == StartId(tgt.vocabSize)
      invariant GrowsByPrediction(net, enc, output) && AvoidsEnd(endId, output)
      invariant attention.None? <==> i == 0
      invariant i > 0 ==> attention.value == NextStep(net, enc, output[..i]).attention
    {
      var step := net(enc, output, false, Masks.CreateMasks(enc, output));
      calls := calls + 1;
      attention := Some(step.attention);
      if step.predictedId == endId {
        return Success(Evaluation(output, step.attention)), calls;
      }
      var next := output + [step.predictedId];
      assert next[..|output|] == output;
      assert forall k :: 1 <= k < |output| ==> next[..k] == output[..k];
      output := next;
      i := i + 1;
    }
    match attention
    case None =>
      return Failure(AttentionUnbound), calls;
    case Some(weights) =>
      return Success(Evaluation(output, weights)), calls;
  }

  /** Two id sequences grown by the same network from the same start agree on their common prefix. */
  lemma {:induction false} PrefixesAgree<W>(net: Network<W>, enc: seq<int>, a: seq<int>, b: seq<int>, n: nat)
    requires GrowsByPrediction(net, enc, a) && GrowsByPrediction(net, enc, b)
    requires 1 <= n <= |a| && n <= |b| && a[0] == b[0]
    ensures a[..n] == b[..n]
  {
    if n > 1 {
      PrefixesAgree(net, enc, a, b, n - 1);
      assert a[n - 1] == NextStep(net, enc, a[..n - 1]).predictedId;
      assert b[n - 1] == NextStep(net, enc, b[..n - 1]).predictedId;
      assert a[..n] == a[..n - 1] + [a[n - 1]];
      assert b[..n] == b[..n - 1] + [b[n - 1]];
    } else {
      assert a[..1] == [a[0]] && b[..1] == [b[0]];
    }
  }

  /**
   A greedy decoding is a prefix of every id sequence the same network grows
   from the same start, and if that sequence is longer its next id is the end
   sentinel (the prediction on which the decoding stopped).
   */
  lemma {:induction false} DecodingIsPrefix<W>(net: Network<W>, enc: seq<int>, startId: int, endId: int,
                                               maxLength: nat, a: seq<int>, b: seq<int>)
    requires IsGreedyDecoding(net, enc, startId, endId, maxLength, a)
    requires GrowsByPrediction(net, enc, b) && |b| >= |a| && b[0] == startId
    ensures b[..|a|] == a
    ensures |b| > |a| && |b| <= maxLength + 1 ==> b[|a|] == endId
  {
    PrefixesAgree(net, enc, a, b, |a|);
    assert a == a[..|a|];
    if |b| > |a| {
      assert b[|a|] == NextStep(net, enc, b[..|a|]).predictedId;
    }
  }

  /**
   Greedy decoding is determined by its inputs: at most one id sequence meets
   the declarative description, so two runs with the same network agree.
   */
  lemma {:induction false} GreedyDecodingUnique<W>(net: Network<W>, enc: seq<int>, startId: int, endId: int,
                                                   maxLength: nat, a: seq<int>, b: seq<int>)
    requires IsGreedyDecoding(net, enc, startId, endId, maxLength, a)
    requires IsGreedyDecoding(net, enc, startId, endId, maxLength, b)
    ensures a == b
  {
    if |a| <= |b| {
      DecodingIsPrefix(net, enc, startId, endId, maxLength, a, b);
    } else {
      DecodingIsPrefix(net, enc, startId, endId, maxLength, b, a);
    }
    assert |a| == |b|;
    assert a == a[..|a|] && b == b[..|b|];
  }

  /** A network that predicts the end sentinel at once leaves only the start id. */
  lemma ImmediateEnd<W>(net: Network<W>, enc: seq<int>, startId: int, endId: int,
                        maxLength: nat, ids: seq<int>)
    requires maxLength >= 1
    requires NextStep(net, enc, [startId]).predictedId == endId
    requires IsGreedyDecoding(net, enc, startId, endId, maxLength, ids)
    ensures ids == [startId]
  {
    assert IsGreedyDecoding(net, enc, startId, endId, maxLength, [startId]);
    GreedyDecodingUnique(net, enc, startId, endId, maxLength, ids, [startId]);
  }

  /**
   A network that never predicts the end sentinel runs to truncation: exactly
   maxLength + 1 ids, each after the first being the prediction on its prefix.
   */
  lemma Truncation<W>(net: Network<W>, enc: seq<int>, startId: int, endId: int,
                      maxLength: nat, ids: seq<int>)
    requires forall out :: NextStep(net, enc, out).predictedId != endId
    requires IsGreedyDecoding(net, enc, startId, endId, maxLength, ids)
    ensures |ids| == maxLength + 1
    ensures forall k :: 1 <= k <= maxLength ==> ids[k] == NextStep(net, enc, ids[..k]).predictedId
  {
  }
}
