/**
 Translation: decode greedily, then keep only the ids that belong to the target
 vocabulary before handing them to the target tokenizer's text decoder. This
 drops the start sentinel and any other id at or above the vocabulary size.
 */
module Translation {
  import opened Wrappers
  import Decoding

  /** `a` is `b` with some entries removed, the remaining ones in their original order. */
  predicate IsSubsequence(a: seq<int>, b: seq<int>)
    decreases |b|
  {
    if |a| == 0 then true
    else if |b| == 0 then false
    else (a[0] == b[0] && IsSubsequence(a[1..], b[1..])) || IsSubsequence(a, b[1..])
  }

  /**
   The ids of `s` below `bound`, in order: the comprehension that keeps
   `i < vocab_size` for every `i` of the result.
   */
  function KeepBelow(s: seq<int>, bound: int): (r: seq<int>)
    ensures forall k :: 0 <= k < |r| ==> r[k] < bound
    ensures forall x :: x < bound ==> multiset(r)[x] == multiset(s)[x]
    ensures IsSubsequence(r, s)
  {
    if |s| == 0 then []
    else
      assert s == [s[0]] + s[1..];
      if s[0] < bound then [s[0]] + KeepBelow(s[1..], bound)
      else KeepBelow(s[1..], bound)
  }

  /** Filtering commutes with concatenation. */
  lemma {:induction false} KeepBelowAppend(a: seq<int>, b: seq<int>, bound: int)
    ensures KeepBelow(a + b, bound) == KeepBelow(a, bound) + KeepBelow(b, bound)
  {
    if |a| > 0 {
      assert (a + b)[1..] == a[1..] + b;
      KeepBelowAppend(a[1..], b, bound);
    } else {
      assert a + b == b;
    }
  }

  /** A sequence whose ids are all below the bound passes through unchanged. */
  lemma {:induction false} KeepBelowAllBelow(s: seq<int>, bound: int)
    requires forall k :: 0 <= k < |s| ==> s[k] < bound
    ensures KeepBelow(s, bound) == s
  {
    if |s| > 0 {
      KeepBelowAllBelow(s[1..], bound);
    }
  }

  /** A decoded result holding the start sentinel 10 and end sentinel 11 of a 10-id vocabulary. */
  lemma KeepBelowSentinelExample()
    ensures KeepBelow([10, 5, 7, 11], 10) == [5, 7]
  {
  }

  /**
   On a decode result, which always starts with the target start sentinel, the
   filter drops that sentinel and keeps the generated ids in the vocabulary;
   when every generated id is in the vocabulary it yields exactly them.
   */
  lemma DecodedIdsFiltered(ids: seq<int>, vocabSize: nat)
    requires |ids| >= 1 && ids[0] == Decoding.StartId(vocabSize)
    ensures KeepBelow(ids, vocabSize) == KeepBelow(ids[1..], vocabSize)
    ensures (forall k :: 1 <= k < |ids| ==> ids[k] < vocabSize) ==> KeepBelow(ids, vocabSize) == ids[1..]
  {
    if forall k :: 1 <= k < |ids| ==> ids[k] < vocabSize {
      KeepBelowAllBelow(ids[1..], vocabSize);
    }
  }

  /**
   Decodes the sentence greedily and turns the in-vocabulary ids into text. It
   fails exactly when the decode loop does (a non-positive length bound).
   */
  method Translate<W(==)>(sentence: string, src: Decoding.Tokenizer, tgt: Decoding.Tokenizer,
                          maxLength: int, net: Decoding.Network<W>)
    returns (r: Result<string, Decoding.EvalError>)
    ensures r.Failure? <==> maxLength <= 0
    ensures r.Success? ==>
              exists ids :: Decoding.IsGreedyDecoding(net, Decoding.EncoderInput(src, sentence),
                                                      Decoding.StartId(tgt.vocabSize),
                                                      Decoding.EndId(tgt.vocabSize), maxLength, ids)
                            && r.value == tgt.decode(KeepBelow(ids, tgt.vocabSize))
  {
    var evaluation, calls := Decoding.Evaluate(sentence, src, tgt, maxLength, net);
    match evaluation
    case Failure(e) =>
      return Failure(e);
    case Success(ev) =>
      return Success(tgt.decode(KeepBelow(ev.ids, tgt.vocabSize)));
  }
}
