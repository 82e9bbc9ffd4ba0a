/** Dropping pruned attention heads gives the same output as masking them: fix_head_pruning_helper against
    head_pruning_reshape of deepspeed/compression/basic_layer.py. */
module HeadPruning {
  import opened Arithmetic
  import opened LinearAlgebra
  import opened Pruning
  import opened Sequences
  import opened Wrappers

  /** A projection of the inputs: weight and bias of Q, K or V. */
  datatype Projection = Projection(weight: Mat, bias: Option<Vec>)

  /** What one head computes from its share of Q, K and V over all tokens. */
  type HeadFunction = (seq<Vec>, seq<Vec>, seq<Vec>) -> seq<Vec>

  ghost predicate IsProjection(p: Projection, rows: nat, width: nat) {
    |p.weight| == rows && Width(p.weight, width) && (p.bias.Some? ==> |p.bias.value| == rows)
  }

  /** A head function returns, for every token, a vector of the head size. */
  ghost predicate IsHeadFunction(f: HeadFunction, size: nat) {
    forall q, k, v :: |f(q, k, v)| == |q| && Width(f(q, k, v), size)
  }

  ghost function ReducedProjection(p: Projection, mask: seq<bool>, size: nat, width: nat): (r: Projection)
    requires IsProjection(p, |mask| * size, width)
  {
    Projection(ReducedRows(p.weight, mask, |mask|, size, width),
               match p.bias case None => None case Some(b) => Some(ReducedBias(b, mask, |mask|, size)))
  }

  /** The share of head h in a projected token. */
  ghost function HeadShare(p: Projection, x: Vec, h: nat, heads: nat, size: nat): (share: Vec)
    requires IsProjection(p, heads * size, |x|) && h < heads
    ensures |share| == size
  {
    Stretch(Linear(p.weight, p.bias, x), h, heads, size)
  }

  ghost function HeadShares(p: Projection, xs: seq<Vec>, h: nat, heads: nat, size: nat, width: nat): (shares: seq<Vec>)
    requires IsProjection(p, heads * size, width) && h < heads && forall t :: 0 <= t < |xs| ==> |xs[t]| == width
    ensures |shares| == |xs|
  {
    seq(|xs|, t requires 0 <= t < |xs| => HeadShare(p, xs[t], h, heads, size))
  }

  // ---------------------------------------------------------------------------------------------
  // The projections
  // ---------------------------------------------------------------------------------------------

  /** Row i of the k-th kept head of a reduced weight is row i of that head of the weight. */
  lemma ReducedRowAt(w: Mat, mask: seq<bool>, size: nat, width: nat, k: nat, i: nat)
    requires |w| == |mask| * size && Width(w, width) && k < Count(mask) && i < size
    ensures 0 <= k * size + i < |ReducedRows(w, mask, |mask|, size, width)|
    ensures 0 <= KeptAt(mask, k) * size + i < |w|
    ensures ReducedRows(w, mask, |mask|, size, width)[k * size + i] == w[KeptAt(mask, k) * size + i]
  {
    hide Flatten, Keep, Count, ReducedRows;
    var blocks := Blocks(w, |mask|, size);
    var kept := Keep(blocks, mask);
    ReducedRowsAreKeptBlocks(w, mask, |mask|, size, width);
    KeptSizes(blocks, mask, size);
    JoinBlock(kept, size, k);
    KeepAt(blocks, mask, k);
    var h := KeptAt(mask, k);
    RowFits(h, |mask|, size);
    RowFits(k, Count(mask), size);
    assert Flatten(kept)[k * size..k * size + size][i] == kept[k][i];
    assert blocks[h][i] == w[h * size..h * size + size][i];
  }

  lemma KeptSizes<T>(blocks: seq<seq<T>>, mask: seq<bool>, size: nat)
    requires |blocks| == |mask| && forall h :: 0 <= h < |blocks| ==> |blocks[h]| == size
    ensures forall k :: 0 <= k < Count(mask) ==> |Keep(blocks, mask)[k]| == size
  {
    forall k | 0 <= k < Count(mask) ensures |Keep(blocks, mask)[k]| == size { KeepAt(blocks, mask, k); }
  }

  lemma ReducedBiasAt(b: Vec, mask: seq<bool>, size: nat, k: nat, i: nat)
    requires |b| == |mask| * size && k < Count(mask) && i < size
    ensures |ReducedBias(b, mask, |mask|, size)| == Count(mask) * size
    ensures 0 <= k * size + i < Count(mask) * size && 0 <= KeptAt(mask, k) * size + i < |b|
    ensures ReducedBias(b, mask, |mask|, size)[k * size + i] == b[KeptAt(mask, k) * size + i]
  {
    var rows := Rows(b, |mask|, size);
    var kept := Keep(rows, mask);
    KeptSizes(rows, mask, size);
    JoinLength(kept, size);
    JoinBlock(kept, size, k);
    KeepAt(rows, mask, k);
    var h := KeptAt(mask, k);
    RowFits(h, |mask|, size);
    RowFits(k, Count(mask), size);
    assert Flatten(kept)[k * size..k * size + size][i] == kept[k][i];
    assert rows[h][i] == b[h * size..h * size + size][i];
  }

  lemma ReducedIsProjection(p: Projection, mask: seq<bool>, size: nat, width: nat)
    requires IsProjection(p, |mask| * size, width)
    ensures IsProjection(ReducedProjection(p, mask, size, width), Count(mask) * size, width)
  {
    if p.bias.Some? {
      var rows := Rows(p.bias.value, |mask|, size);
      KeptSizes(rows, mask, size);
      JoinLength(Keep(rows, mask), size);
    }
  }

  lemma ReducedEntry(p: Projection, mask: seq<bool>, size: nat, x: Vec, k: nat, i: nat)
    requires IsProjection(p, |mask| * size, |x|) && k < Count(mask) && i < size
    ensures var r := ReducedProjection(p, mask, size, |x|);
      IsProjection(r, Count(mask) * size, |x|) &&
      0 <= k * size + i < |r.weight| && 0 <= KeptAt(mask, k) * size + i < |p.weight| &&
      Linear(r.weight, r.bias, x)[k * size + i] == Linear(p.weight, p.bias, x)[KeptAt(mask, k) * size + i]
  {
    hide Dot, ReducedRows, ReducedBias, Keep, Count, KeptAt;
    ReducedIsProjection(p, mask, size, |x|);
    var r, h := ReducedProjection(p, mask, size, |x|), KeptAt(mask, k);
    ReducedRowAt(p.weight, mask, size, |x|, k, i);
    if p.bias.Some? { ReducedBiasAt(p.bias.value, mask, size, k, i); }
    LinearAt(r.weight, r.bias, x, k * size + i);
    LinearAt(p.weight, p.bias, x, h * size + i);
  }

  lemma ShareAt(p: Projection, x: Vec, h: nat, heads: nat, size: nat, i: nat)
    requires IsProjection(p, heads * size, |x|) && h < heads && i < size
    ensures 0 <= h * size + i < |p.weight|
    ensures HeadShare(p, x, h, heads, size)[i] == Linear(p.weight, p.bias, x)[h * size + i]
  {
    hide Linear;
    RowFits(h, heads, size);
  }

  /** Head k of the reduced projection is the k-th kept head of the full one. */
  lemma ReducedShare(p: Projection, mask: seq<bool>, size: nat, x: Vec, k: nat)
    requires IsProjection(p, |mask| * size, |x|) && k < Count(mask)
    ensures IsProjection(ReducedProjection(p, mask, size, |x|), Count(mask) * size, |x|)
    ensures HeadShare(ReducedProjection(p, mask, size, |x|), x, k, Count(mask), size) ==
            HeadShare(p, x, KeptAt(mask, k), |mask|, size)
  {
    hide Linear, ReducedProjection, Keep, Count, KeptAt, HeadShare;
    ReducedIsProjection(p, mask, size, |x|);
    var r, h := ReducedProjection(p, mask, size, |x|), KeptAt(mask, k);
    var reduced, full := HeadShare(r, x, k, Count(mask), size), HeadShare(p, x, h, |mask|, size);
    forall i | 0 <= i < size ensures reduced[i] == full[i] {
      ReducedEntry(p, mask, size, x, k, i);
      ShareAt(r, x, k, Count(mask), size, i);
      ShareAt(p, x, h, |mask|, size, i);
    }
  }

  lemma LinearAt(w: Mat, b: Option<Vec>, x: Vec, i: nat)
    requires Width(w, |x|) && (b.Some? ==> |b.value| == |w|) && i < |w|
    ensures Linear(w, b, x)[i] == Dot(w[i], x) + if b.Some? then b.value[i] else 0.0
  {
  }

  // ---------------------------------------------------------------------------------------------
  // The output layer
  // ---------------------------------------------------------------------------------------------

  lemma TransposedRow(m: Mat, width: nat, o: nat)
    requires Width(m, width) && o < width
    ensures Transpose(m, width)[o] == Column(m, o)
  {
  }

  /** The output layer on the masked O matrix equals the output layer on the reduced one, fed with the kept
      heads only. */
  lemma OutputLayer(wo: Mat, bo: Option<Vec>, mask: seq<bool>, size: nat, outs: seq<Vec>)
    requires Width(wo, |mask| * size) && (bo.Some? ==> |bo.value| == |wo|)
    requires |outs| == |mask| && forall h :: 0 <= h < |outs| ==> |outs[h]| == size
    ensures Width(HeadPruningReshape(wo, mask, |mask|, size), |Flatten(outs)|) &&
      |HeadPruningReshape(wo, mask, |mask|, size)| == |wo|
    ensures Width(ReducedO(wo, mask, |mask|, size), |Flatten(Keep(outs, mask))|) &&
      |ReducedO(wo, mask, |mask|, size)| == |wo|
    ensures Linear(HeadPruningReshape(wo, mask, |mask|, size), bo, Flatten(outs)) ==
            Linear(ReducedO(wo, mask, |mask|, size), bo, Flatten(Keep(outs, mask)))
  {
    hide Dot;
    var heads, width := |mask|, |wo|;
    var t := Transpose(wo, heads * size);
    var blocks := Blocks(t, heads, size);
    BlocksWidth(t, heads, size, width);
    MaskedRowsAreScaledBlocks(t, mask, heads, size, width);
    ReducedRowsAreKeptBlocks(t, mask, heads, size, width);
    JoinLength(outs, size);
    KeptSizes(outs, mask, size);
    JoinLength(Keep(outs, mask), size);
    var masked, reduced := HeadPruningReshape(wo, mask, heads, size), ReducedO(wo, mask, heads, size);
    forall o | 0 <= o < width ensures Dot(masked[o], Flatten(outs)) == Dot(reduced[o], Flatten(Keep(outs, mask))) {
      HeadsProduct(blocks, mask, outs, width, o);
      TransposedRow(Flatten(ScaledBlocks(blocks, mask)), width, o);
      TransposedRow(Flatten(Keep(blocks, mask)), width, o);
    }
    assert Apply(masked, Flatten(outs)) == Apply(reduced, Flatten(Keep(outs, mask)));
  }

  // ---------------------------------------------------------------------------------------------
  // The attention layer
  // ---------------------------------------------------------------------------------------------

  /** The output of head h at token t. */
  ghost function HeadOutput(f: HeadFunction, q: Projection, k: Projection, v: Projection, xs: seq<Vec>,
                            h: nat, heads: nat, size: nat, width: nat, t: nat): (y: Vec)
    requires IsHeadFunction(f, size) && h < heads && t < |xs| && forall s :: 0 <= s < |xs| ==> |xs[s]| == width
    requires IsProjection(q, heads * size, width) && IsProjection(k, heads * size, width) &&
      IsProjection(v, heads * size, width)
    ensures |y| == size
  {
    f(HeadShares(q, xs, h, heads, size, width), HeadShares(k, xs, h, heads, size, width),
      HeadShares(v, xs, h, heads, size, width))[t]
  }

  /** The outputs of all heads at token t. */
  ghost function HeadOutputs(f: HeadFunction, q: Projection, k: Projection, v: Projection, xs: seq<Vec>,
                             heads: nat, size: nat, width: nat, t: nat): (outs: seq<Vec>)
    requires IsHeadFunction(f, size) && t < |xs| && forall s :: 0 <= s < |xs| ==> |xs[s]| == width
    requires IsProjection(q, heads * size, width) && IsProjection(k, heads * size, width) &&
      IsProjection(v, heads * size, width)
    ensures |outs| == heads && forall h :: 0 <= h < heads ==> |outs[h]| == size
  {
    seq(heads, h requires 0 <= h < heads => HeadOutput(f, q, k, v, xs, h, heads, size, width, t))
  }

  lemma ReducedShares(p: Projection, mask: seq<bool>, size: nat, xs: seq<Vec>, width: nat, k: nat)
    requires IsProjection(p, |mask| * size, width) && k < Count(mask) && forall s :: 0 <= s < |xs| ==> |xs[s]| == width
    ensures IsProjection(ReducedProjection(p, mask, size, width), Count(mask) * size, width)
    ensures HeadShares(ReducedProjection(p, mask, size, width), xs, k, Count(mask), size, width) ==
            HeadShares(p, xs, KeptAt(mask, k), |mask|, size, width)
  {
    hide Linear;
    ReducedIsProjection(p, mask, size, width);
    forall t | 0 <= t < |xs|
      ensures HeadShare(ReducedProjection(p, mask, size, width), xs[t], k, Count(mask), size) ==
              HeadShare(p, xs[t], KeptAt(mask, k), |mask|, size)
    {
      ReducedShare(p, mask, size, xs[t], k);
    }
  }

  /** The heads of the reduced layer are the kept heads of the full layer. */
  lemma ReducedHeads(f: HeadFunction, q: Projection, k: Projection, v: Projection, mask: seq<bool>, xs: seq<Vec>,
                     size: nat, width: nat, t: nat)
    requires IsHeadFunction(f, size) && t < |xs| && forall s :: 0 <= s < |xs| ==> |xs[s]| == width
    requires IsProjection(q, |mask| * size, width) && IsProjection(k, |mask| * size, width) &&
      IsProjection(v, |mask| * size, width)
    ensures IsProjection(ReducedProjection(q, mask, size, width), Count(mask) * size, width)
    ensures IsProjection(ReducedProjection(k, mask, size, width), Count(mask) * size, width)
    ensures IsProjection(ReducedProjection(v, mask, size, width), Count(mask) * size, width)
    ensures HeadOutputs(f, ReducedProjection(q, mask, size, width), ReducedProjection(k, mask, size, width),
                        ReducedProjection(v, mask, size, width), xs, Count(mask), size, width, t) ==
            Keep(HeadOutputs(f, q, k, v, xs, |mask|, size, width, t), mask)
  {
    hide Linear;
    ReducedIsProjection(q, mask, size, width);
    ReducedIsProjection(k, mask, size, width);
    ReducedIsProjection(v, mask, size, width);
    var all := HeadOutputs(f, q, k, v, xs, |mask|, size, width, t);
    var reduced := HeadOutputs(f, ReducedProjection(q, mask, size, width), ReducedProjection(k, mask, size, width),
                               ReducedProjection(v, mask, size, width), xs, Count(mask), size, width, t);
    forall h | 0 <= h < Count(mask) ensures reduced[h] == Keep(all, mask)[h] {
      ReducedShares(q, mask, size, xs, width, h);
      ReducedShares(k, mask, size, xs, width, h);
      ReducedShares(v, mask, size, xs, width, h);
      KeepAt(all, mask, h);
    }
  }

  /** Head pruning by dimension reduction preserves meaning: at every token, the attention layer with the
      pruned heads cut out of Q, K, V and O returns what the full layer returns with the O matrix masked, for
      any function the heads compute. */
  lemma HeadPruningPreservesMeaning(f: HeadFunction, q: Projection, k: Projection, v: Projection, wo: Mat,
                                    bo: Option<Vec>, mask: seq<bool>, xs: seq<Vec>, size: nat, width: nat, t: nat)
    requires IsHeadFunction(f, size) && t < |xs| && forall s :: 0 <= s < |xs| ==> |xs[s]| == width
    requires IsProjection(q, |mask| * size, width) && IsProjection(k, |mask| * size, width) &&
      IsProjection(v, |mask| * size, width)
    requires Width(wo, |mask| * size) && (bo.Some? ==> |bo.value| == |wo|)
    ensures IsProjection(ReducedProjection(q, mask, size, width), Count(mask) * size, width)
    ensures IsProjection(ReducedProjection(k, mask, size, width), Count(mask) * size, width)
    ensures IsProjection(ReducedProjection(v, mask, size, width), Count(mask) * size, width)
    ensures var full := Flatten(HeadOutputs(f, q, k, v, xs, |mask|, size, width, t));
      var reduced := Flatten(HeadOutputs(f, ReducedProjection(q, mask, size, width),
                                         ReducedProjection(k, mask, size, width),
                                         ReducedProjection(v, mask, size, width), xs, Count(mask), size, width, t));
      var masked, cut := HeadPruningReshape(wo, mask, |mask|, size), ReducedO(wo, mask, |mask|, size);
      Width(masked, |full|) && |masked| == |wo| && Width(cut, |reduced|) && |cut| == |wo| &&
      Linear(cut, bo, reduced) == Linear(masked, bo, full)
  {
    hide Linear;
    ReducedHeads(f, q, k, v, mask, xs, size, width, t);
    OutputLayer(wo, bo, mask, size, HeadOutputs(f, q, k, v, xs, |mask|, size, width, t));
  }

  /** `head_pruning_reshape` scales exactly the columns of the pruned heads to zero. */
  lemma MaskedColumns(w: Mat, mask: seq<bool>, size: nat, o: nat, c: nat)
    requires Width(w, |mask| * size) && o < |w| && c < |mask| * size
    ensures var r := HeadPruningReshape(w, mask, |mask|, size);
      |r| == |w| && |r[o]| == |mask| * size && c / size < |mask| && r[o][c] == if mask[c / size] then w[o][c] else 0.0
  {
    var heads := |mask|;
    QuotientBound(c, heads, size);
    var t := Transpose(w, heads * size);
    MaskedRowsAreScaledBlocks(t, mask, heads, size, |w|);
    ScaledEntry(t, mask, size, |w|, c / size, c % size, o);
  }

  lemma ScaledEntry(t: Mat, mask: seq<bool>, size: nat, width: nat, h: nat, i: nat, o: nat)
    requires |t| == |mask| * size && Width(t, width) && h < |mask| && i < size && o < width
    ensures var scaled := Flatten(ScaledBlocks(Blocks(t, |mask|, size), mask));
      0 <= h * size + i < |scaled| && h * size + i < |t| && o < |scaled[h * size + i]| &&
      scaled[h * size + i][o] == if mask[h] then t[h * size + i][o] else 0.0
  {
    var blocks := Blocks(t, |mask|, size);
    var scaled := ScaledBlocks(blocks, mask);
    RowFits(h, |mask|, size);
    JoinBlock(scaled, size, h);
    assert Flatten(scaled)[h * size..h * size + size][i] == Flatten(scaled)[h * size + i];
    assert blocks[h][i] == t[h * size + i];
    assert scaled[h][i] == ScaleVec(Bit(mask[h]), blocks[h][i]);
  }
}
