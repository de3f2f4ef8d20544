# Greedy Transformer decoding: masks, decode loop and output filter

A Dafny model of the control layer that wraps a sequence-to-sequence Transformer
translation model in `src/utils/transformer_utils.py`:

- **Masks** (`masks.dfy`): the padding mask (1 where a token is the pad id 0),
  the strictly upper-triangular look-ahead mask, and `create_masks`, which
  returns the encoder padding mask, the combined decoder mask (element-wise
  maximum of the broadcast target padding mask and the look-ahead mask) and the
  cross-attention padding mask. The singleton batch and head dimensions are
  dropped: a padding mask is one row, a decoder mask an n-by-n matrix. The
  look-ahead mask is built the way the source builds it, as one minus the
  lower band part of a square of ones.
- **Decode loop** (`decoding.dfy`): `evaluate` wraps the encoded sentence in the
  source sentinels `vocab_size` and `vocab_size + 1`, seeds the decoder with the
  target start id `vocab_size`, and calls the network at most `max_length_pred`
  times, rebuilding the masks each time, stopping before the append when the
  predicted id is the target end id `vocab_size + 1`. Its result is
  characterised declaratively (`IsGreedyDecoding`: starts with the start id,
  every later id is the network's prediction on the ids before it, no end id,
  at most `max_length_pred + 1` ids, and a short result means the network
  predicted the end id on it), and that description is proved to have at most
  one solution, so the loop is deterministic.
- **Translate** (`translation.dfy`): the ids handed to the target tokenizer's
  `decode` are exactly the result's ids below the target vocabulary size, in
  order.
- `wrappers.dfy` holds the `Option`/`Result` types.

Collaborators are parameters: a `Tokenizer` is its vocabulary size with opaque
`encode` and `decode` functions; the Transformer is a `Network<W>`, a function
from (encoder ids, decoder ids, training flag, masks) to the argmax id of the
last-position logits and the call's attention weights of opaque type `W`.

When `max_length_pred <= 0` the source's loop body never runs and the final
`return` reads the never-assigned `attention_weights`, raising an error; the
model returns `Failure(AttentionUnbound)` in that case.
`evaluate` does not reject an empty sentence and `create_masks` does not reject
an empty sequence; the model follows the code (an empty sentence still yields
the two sentinels; the masks of an empty sequence are empty).

## Model

| member | source | states |
|---|---|---|
| Masks.PaddingMask | src/utils/transformer_utils.py:33-43 | one entry per position; entry j is 1 exactly when the token is the pad id 0 and 0 otherwise |
| Masks.LookAheadMask | src/utils/transformer_utils.py:46-53 | built as one minus the band part (TF's in-band rule, `InBand`/`BandPart`) of a square of ones, it is a size-by-size 0/1 matrix whose entry [i][j] is 1 exactly when j > i, so row i leaves keys 0..i visible and the diagonal is 0 |
| Masks.CombinedMask | src/utils/transformer_utils.py:70-75 | a square mask of side len(tar) whose entry [i][j] is 1 exactly when tar[j] is padding or j > i |
| Masks.CombinedIsMaxOfParts | src/utils/transformer_utils.py:73-75 | each combined entry equals the maximum of the target padding entry of its column and the look-ahead entry |
| Masks.CreateMasks | src/utils/transformer_utils.py:56-77 | the encoder and cross-attention masks are the same padding mask of the input; the decoder mask hides padded and future keys of the target |
| Masks.MasksSeparate | src/utils/transformer_utils.py:63-75 | the two padding masks do not depend on the target and the combined mask does not depend on the input |
| Masks.CombinedMaskExtend | src/utils/transformer_utils.py:73-75 | appending a decoder token leaves earlier rows' view of earlier keys unchanged and hides the new key from every earlier row |
| Masks.FirstKeyAlwaysVisible | src/utils/transformer_utils.py:73-75 | when the first target token is not padding, every query row of the decoder mask can attend to key 0 |
| Decoding.EncoderInput | src/utils/transformer_utils.py:92-97 | the encoder input is the encoded sentence between the source start and end sentinels, two ids longer than the encoding |
| Decoding.EncoderSentinelsVisible | src/utils/transformer_utils.py:92-96 | the end sentinel of the encoder input is never padding-masked, nor the start sentinel when the source vocabulary is non-empty |
| Decoding.Evaluate | src/utils/transformer_utils.py:80-126 | each step (`NextStep`) rebuilds the three masks from the current output and calls the network with training flag false; fails exactly when max_length_pred <= 0; otherwise returns a greedy decoding (start id first, each id the prediction on its prefix, no end id, at most max_length_pred + 1 ids, short only when the end id was predicted) and the attention weights of the last of its at most max_length_pred network calls |
| Decoding.PrefixesAgree | src/utils/transformer_utils.py:103-124 | two id sequences grown by the same network from the same start agree on their common prefix |
| Decoding.DecodingIsPrefix | src/utils/transformer_utils.py:103-124 | a greedy decoding is a prefix of any at-least-as-long sequence the network grows from the same start, and, when that sequence is longer but holds at most max_length_pred + 1 ids, its next id is the end sentinel |
| Decoding.GreedyDecodingUnique | src/utils/transformer_utils.py:103-126 | at most one id sequence is a greedy decoding for given network, encoder input and bound: decoding is deterministic |
| Decoding.ImmediateEnd | src/utils/transformer_utils.py:119-121 | if the network predicts the end id on the start id alone, the result is just the start id |
| Decoding.Truncation | src/utils/transformer_utils.py:103-126 | if the network never predicts the end id, the result has exactly max_length_pred + 1 ids, the start id followed by the successive predictions |
| Translation.KeepBelow | src/utils/transformer_utils.py:187 | the kept ids are all below the vocabulary size, every id below it keeps its multiplicity, and they form an order-preserving subsequence of the result |
| Translation.KeepBelowAppend | src/utils/transformer_utils.py:187 | the filter of a concatenation is the concatenation of the filters |
| Translation.KeepBelowAllBelow | src/utils/transformer_utils.py:187 | ids that are all in the vocabulary pass through unchanged |
| Translation.KeepBelowSentinelExample | src/utils/transformer_utils.py:187 | with vocabulary size 10, the ids [10, 5, 7, 11] filter to [5, 7] |
| Translation.DecodedIdsFiltered | src/utils/transformer_utils.py:185-187 | on ids that start with the target start sentinel, as every decode result does, the filter drops that sentinel, and yields exactly the generated ids when they are all in the vocabulary |
| Translation.Translate | src/utils/transformer_utils.py:172-190 | fails exactly when max_length_pred <= 0; otherwise the text is the target decoder applied to the in-vocabulary ids of the greedy decoding |

## Left out

- `CustomSchedule` (lines 14-30): floating-point `rsqrt`/`min` on tensors, with no exact counterpart in Dafny's reals.
- `plot_attention_weights` and the `plot` argument of `translate` (lines 129-169, 188-189): plotting side effects, and the error raised for a layer name absent from the attention weights (line 143), which can make `translate` fail after decoding; `Translation.Translate` has no `plot` parameter.
- The Transformer network, the tokenizers' `encode`/`decode` and the float logits: external model and library calls, kept as opaque function parameters. The argmax over the last-position logits is folded into the network's result, so its tie-breaking is not modelled.
- Tensor plumbing (`expand_dims`, `squeeze`, `cast`, broadcast dimensions): the batch size is always one, so sequences are plain `seq<int>` and masks hold the integers 0/1 instead of float32.
- The int32 width of predicted ids and of the tensors: ids are unbounded integers (predicted ids are naturals).
- `src/config.py`: configuration field declarations with no behaviour.
