/**
 Attention masks built from integer token sequences.

 The source builds float32 tensors of shape (batch, 1, 1, n) for padding masks
 and (n, n) for the look-ahead mask. With a batch of exactly one sequence the
 singleton dimensions carry no information, so here a padding mask is one row
 of length n and a decoder mask is an n-by-n matrix. An entry 1 means "must not
 attend" and 0 means "may attend"; the float values 0.0/1.0 become the integers
 0/1.
 */
module Masks {

  /** One mask row: entry j says whether key position j is hidden. */
  type Row = seq<int>

  /** A mask matrix: entry [i][j] says whether query i may not look at key j. */
  type Matrix = seq<seq<int>>

  /** Every row of `m` has `cols` entries and there are `rows` rows. */
  predicate HasShape(m: Matrix, rows: nat, cols: nat)
  {
    |m| == rows && forall i :: 0 <= i < rows ==> |m[i]| == cols
  }

  predicate IsBinaryRow(r: Row)
  {
    forall j :: 0 <= j < |r| ==> r[j] == 0 || r[j] == 1
  }

  predicate IsBinary(m: Matrix)
  {
    forall i, j :: 0 <= i < |m| && 0 <= j < |m[i]| ==> m[i][j] == 0 || m[i][j] == 1
  }

  /** The float cast of a boolean tensor entry: true is 1, false is 0. */
  function Indicator(b: bool): (r: int)
  {
    if b then 1 else 0
  }

  function Max(a: int, b: int): (r: int)
  {
    if a < b then b else a
  }

  /** Padding mask: the cast of the element-wise test "is the pad id 0". */
  function PaddingMask(s: seq<int>): (m: Row)
    ensures |m| == |s|
    ensures forall j :: 0 <= j < |s| ==> (m[j] == 1 <==> s[j] == 0)
    ensures IsBinaryRow(m)
  {
    seq(|s|, j requires 0 <= j < |s| => Indicator(s[j] == 0))
  }

  /** A rows-by-cols matrix of ones. */
  function Ones(rows: nat, cols: nat): (m: Matrix)
    ensures HasShape(m, rows, cols)
  {
    seq(rows, i => seq(cols, j => 1))
  }

  /** The band test of a matrix band-part: a negative bound keeps the whole side. */
  predicate InBand(i: int, j: int, numLower: int, numUpper: int)
  {
    (numLower < 0 || i - j <= numLower) && (numUpper < 0 || j - i <= numUpper)
  }

  /** Keeps the entries inside the band and zeroes the others. */
  function BandPart(m: Matrix, numLower: int, numUpper: int): (r: Matrix)
    ensures |r| == |m|
    ensures forall i :: 0 <= i < |m| ==> |r[i]| == |m[i]|
  {
    seq(|m|, i requires 0 <= i < |m| =>
      seq(|m[i]|, j requires 0 <= j < |m[i]| =>
        if InBand(i, j, numLower, numUpper) then m[i][j] else 0))
  }

  /** Element-wise `1 - x`. */
  function OneMinus(m: Matrix): (r: Matrix)
    ensures |r| == |m|
    ensures forall i :: 0 <= i < |m| ==> |r[i]| == |m[i]|
  {
    seq(|m|, i requires 0 <= i < |m| =>
      seq(|m[i]|, j requires 0 <= j < |m[i]| => 1 - m[i][j]))
  }

  /**
   Look-ahead (causal) mask: one minus the lower triangle (diagonal included)
   of a square of ones. Query i may look at keys 0..i and at nothing later.
   */
  function LookAheadMask(size: nat): (m: Matrix)
    ensures HasShape(m, size, size)
    ensures forall i, j :: 0 <= i < size && 0 <= j < size ==> (m[i][j] == 1 <==> j > i)
    ensures IsBinary(m)
  {
    OneMinus(BandPart(Ones(size, size), -1, 0))
  }

  /** Repeats one row n times: the broadcast of a (1, n) mask over n query rows. */
  function BroadcastRows(row: Row, n: nat): (m: Matrix)
    ensures HasShape(m, n, |row|)
  {
    seq(n, i => row)
  }

  /** Element-wise maximum of two matrices of the same shape. */
  function Maximum(a: Matrix, b: Matrix): (r: Matrix)
    requires |a| == |b|
    requires forall i :: 0 <= i < |a| ==> |a[i]| == |b[i]|
    ensures |r| == |a|
    ensures forall i :: 0 <= i < |a| ==> |r[i]| == |a[i]|
  {
    seq(|a|, i requires 0 <= i < |a| =>
      seq(|a[i]|, j requires 0 <= j < |a[i]| => Max(a[i][j], b[i][j])))
  }

  /**
   The decoder self-attention mask: the target padding mask, broadcast over the
   query rows, combined with the look-ahead mask by element-wise maximum.
   Key j is hidden from query i exactly when it is padding or lies in i's future.
   */
  function CombinedMask(tar: seq<int>): (m: Matrix)
    ensures HasShape(m, |tar|, |tar|)
    ensures forall i, j :: 0 <= i < |tar| && 0 <= j < |tar| ==>
              (m[i][j] == 1 <==> tar[j] == 0 || j > i)
    ensures IsBinary(m)
  {
    Maximum(BroadcastRows(PaddingMask(tar), |tar|), LookAheadMask(|tar|))
  }

  /** The three masks handed to the Transformer at one decoding step. */
  datatype MaskSet = MaskSet(encPadding: Row, combined: Matrix, decPadding: Row)

  /**
   Builds the encoder padding mask and the cross-attention padding mask, both
   from the encoder input, and the combined decoder mask from the target.
   */
  function CreateMasks(inp: seq<int>, tar: seq<int>): (ms: MaskSet)
    ensures ms.encPadding == ms.decPadding
    ensures |ms.encPadding| == |inp|
    ensures forall j :: 0 <= j < |inp| ==> (ms.encPadding[j] == 1 <==> inp[j] == 0)
    ensures HasShape(ms.combined, |tar|, |tar|)
    ensures forall i, j :: 0 <= i < |tar| && 0 <= j < |tar| ==>
              (ms.combined[i][j] == 1 <==> tar[j] == 0 || j > i)
  {
    MaskSet(PaddingMask(inp), CombinedMask(tar), PaddingMask(inp))
  }

  /** Each combined-mask entry is the larger of the padding entry and the look-ahead entry. */
  lemma CombinedIsMaxOfParts(tar: seq<int>, i: nat, j: nat)
    requires i < |tar| && j < |tar|
    ensures CombinedMask(tar)[i][j] == Max(PaddingMask(tar)[j], LookAheadMask(|tar|)[i][j])
  {
  }

  /** The encoder-side masks depend on the encoder input only, the decoder mask on the target only. */
  lemma MasksSeparate(inp1: seq<int>, inp2: seq<int>, tar1: seq<int>, tar2: seq<int>)
    ensures CreateMasks(inp1, tar1).encPadding == CreateMasks(inp1, tar2).encPadding
    ensures CreateMasks(inp1, tar1).decPadding == CreateMasks(inp1, tar2).decPadding
    ensures CreateMasks(inp1, tar1).combined == CreateMasks(inp2, tar1).combined
  {
  }

  /**
   Appending a token to the decoder input leaves every earlier query row's view of
   the earlier keys unchanged, and hides the new key from all earlier queries.
   */
  lemma CombinedMaskExtend(tar: seq<int>, x: int)
    ensures forall i, j :: 0 <= i < |tar| && 0 <= j < |tar| ==>
              CombinedMask(tar + [x])[i][j] == CombinedMask(tar)[i][j]
    ensures forall i :: 0 <= i < |tar| ==> CombinedMask(tar + [x])[i][|tar|] == 1
  {
  }

  /** When the first token is not the pad id, no query row of the decoder mask is fully hidden. */
  lemma FirstKeyAlwaysVisible(tar: seq<int>)
    requires |tar| > 0 && tar[0] != 0
    ensures forall i :: 0 <= i < |tar| ==> CombinedMask(tar)[i][0] == 0
  {
  }
}
