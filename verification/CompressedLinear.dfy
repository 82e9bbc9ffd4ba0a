/** The compressed linear layer as an object: LinearLayer_Compress of deepspeed/compression/basic_layer.py,
    with row and head pruning. */
module CompressedLinear {
  import opened Arithmetic
  import opened LinearAlgebra
  import opened Pruning
  import opened HeadPruning
  import opened Wrappers

  class LinearLayer {
    var weight: Mat
    var bias: Option<Vec>
    var inFeatures: nat
    var outFeatures: nat
    /** The binary row mask, while row pruning is enabled with a method. */
    var rowMask: Option<seq<bool>>
    /** The binary head mask, while head pruning is enabled with a method. */
    var headMask: Option<seq<bool>>
    /** Input columns of one head. */
    var headSize: nat

    ghost predicate Valid()
      reads this
    {
      |weight| == outFeatures && Width(weight, inFeatures) && (bias.Some? ==> |bias.value| == outFeatures) &&
      (rowMask.Some? ==> |rowMask.value| == outFeatures) &&
      (headMask.Some? ==> |headMask.value| * headSize == inFeatures)
    }

    /** The weight `forward` uses: rows masked, then heads. */
    ghost function EffectiveWeight(): (w: Mat)
      requires Valid()
      reads this
      ensures |w| == outFeatures && Width(w, inFeatures)
    {
      var w := if rowMask.Some? then MaskRows(weight, rowMask.value) else weight;
      if headMask.Some? then
        ReshapeShape(w, headMask.value, headSize);
        HeadPruningReshape(w, headMask.value, |headMask.value|, headSize)
      else w
    }

    ghost function EffectiveBias(): (b: Option<Vec>)
      requires Valid()
      reads this
      ensures b.Some? ==> |b.value| == outFeatures
    {
      if rowMask.Some? then MaskBias(bias, rowMask.value) else bias
    }

    ghost function Forward(x: Vec): (y: Vec)
      requires Valid() && |x| == inFeatures
      reads this
    {
      Linear(EffectiveWeight(), EffectiveBias(), x)
    }

    /** What the layer computes: a pruned row gives 0, any other one its output without the inputs of pruned heads. */
    lemma ForwardMeaning(x: Vec, o: nat)
      requires Valid() && |x| == inFeatures && o < outFeatures
      ensures Forward(x)[o] ==
        if rowMask.Some? && !rowMask.value[o] then 0.0
        else Dot(weight[o], if headMask.Some? then KeptInputs(x, headMask.value, headSize) else x) +
             (if bias.Some? then bias.value[o] else 0.0)
    {
      hide HeadPruningReshape, Dot;
      var rows := if rowMask.Some? then MaskRows(weight, rowMask.value) else weight;
      var kept := if headMask.Some? then KeptInputs(x, headMask.value, headSize) else x;
      if headMask.Some? { HeadDot(rows, headMask.value, headSize, x, o); }
      assert Dot(EffectiveWeight()[o], x) == Dot(rows[o], kept);
      if rowMask.Some? { DotMasked(rowMask.value[o], weight[o], kept); }
    }

    constructor (weight: Mat, bias: Option<Vec>, inFeatures: nat)
      requires Width(weight, inFeatures) && (bias.Some? ==> |bias.value| == |weight|)
      ensures Valid() && this.weight == weight && this.bias == bias && this.inFeatures == inFeatures
      ensures rowMask == None && headMask == None && outFeatures == |weight|
    {
      this.weight, this.bias, this.inFeatures, outFeatures := weight, bias, inFeatures, |weight|;
      rowMask, headMask, headSize := None, None, 0;
    }

    /** `fix_row_col_pruning_helper` without a mask. Without dimension reduction the layer computes what it
        computed before; with it, only the kept rows remain. */
    method FixRowPruning(dimReduction: bool) returns (mask: seq<bool>)
      requires Valid() && rowMask.Some?
      modifies this
      ensures Valid() && rowMask == None && mask == old(rowMask.value)
      ensures headMask == old(headMask) && headSize == old(headSize) && inFeatures == old(inFeatures)
      ensures dimReduction ==>
        outFeatures == Count(mask) && weight == Keep(old(weight), mask) && bias == KeepBias(old(bias), mask)
      ensures !dimReduction ==>
        outFeatures == old(outFeatures) && forall x: Vec :: |x| == inFeatures ==> Forward(x) == old(Forward(x))
    {
      mask := rowMask.value;
      if dimReduction {
        KeepWidth(weight, mask, inFeatures);
        weight := Keep(weight, mask);
        bias := KeepBias(bias, mask);
        outFeatures := |weight|;
      } else {
        weight := MaskRows(weight, mask);
        bias := MaskBias(bias, mask);
      }
      rowMask := None;
    }

    /** `fix_row_col_pruning_helper` with the mask of the layer before: the pruned input columns go. */
    method FixColumnPruning(mask: seq<bool>)
      requires Valid() && |mask| == inFeatures && headMask == None
      modifies this
      ensures Valid() && weight == KeepColumns(old(weight), mask) && bias == old(bias)
      ensures inFeatures == Count(mask) && outFeatures == old(outFeatures) && rowMask == None && headMask == None
    {
      weight := KeepColumns(weight, mask);
      inFeatures := Count(mask);
      rowMask := None;
    }

    /** `fix_head_pruning_helper` without a mask, on the O matrix. Without dimension reduction the layer
        computes what it computed before. The recorded number of input features is not adjusted. */
    method FixHeadPruning(dimReduction: bool) returns (mask: seq<bool>)
      requires Valid() && headMask.Some?
      modifies this
      ensures mask == old(headMask.value) && headMask == None && rowMask == old(rowMask)
      ensures bias == old(bias) && outFeatures == old(outFeatures) && inFeatures == old(inFeatures) &&
        headSize == old(headSize)
      ensures dimReduction ==>
        weight == ReducedO(old(weight), mask, |mask|, headSize) && Width(weight, Count(mask) * headSize)
      ensures !dimReduction ==> Valid() && forall x: Vec :: |x| == inFeatures ==> Forward(x) == old(Forward(x))
    {
      mask := headMask.value;
      ReshapeShape(weight, mask, headSize);
      if dimReduction {
        weight := ReducedO(weight, mask, |mask|, headSize);
      } else {
        if rowMask.Some? { MasksCommute(weight, rowMask.value, mask, headSize); }
        weight := HeadPruningReshape(weight, mask, |mask|, headSize);
      }
      headMask := None;
    }

    /** `fix_head_pruning_helper` with the mask of the O matrix, on Q, K or V: the rows of the pruned heads
        go, and their bias entries. */
    method FixHeadRows(mask: seq<bool>, size: nat)
      requires Valid() && rowMask == None && headMask == None && |mask| * size == outFeatures
      modifies this
      ensures inFeatures == old(inFeatures)
      ensures var p := ReducedProjection(Projection(old(weight), old(bias)), mask, size, inFeatures);
        weight == p.weight && bias == p.bias && IsProjection(p, Count(mask) * size, inFeatures)
    {
      ReducedIsProjection(Projection(weight, bias), mask, size, inFeatures);
      weight := ReducedRows(weight, mask, |mask|, size, inFeatures);
      match bias {
        case None =>
        case Some(b) => bias := Some(ReducedBias(b, mask, |mask|, size));
      }
    }
  }

  /** The inputs, with those of pruned heads at zero. */
  ghost function KeptInputs(x: Vec, mask: seq<bool>, size: nat): (y: Vec)
    requires |x| == |mask| * size
    ensures |y| == |x|
  {
    seq(|x|, c requires 0 <= c < |x| =>
      QuotientBound(c, |mask|, size);
      if mask[c / size] then x[c] else 0.0)
  }

  /** Masking the heads of a row is dropping their inputs. */
  lemma HeadDot(w: Mat, mask: seq<bool>, size: nat, x: Vec, o: nat)
    requires Width(w, |mask| * size) && |x| == |mask| * size && o < |w|
    ensures |HeadPruningReshape(w, mask, |mask|, size)| == |w| && |HeadPruningReshape(w, mask, |mask|, size)[o]| == |x|
    ensures Dot(HeadPruningReshape(w, mask, |mask|, size)[o], x) == Dot(w[o], KeptInputs(x, mask, size))
  {
    hide HeadPruningReshape;
    ReshapeShape(w, mask, size);
    var masked, kept := HeadPruningReshape(w, mask, |mask|, size), KeptInputs(x, mask, size);
    forall c | 0 <= c < |x| ensures Products(masked[o], x)[c] == Products(w[o], kept)[c] {
      MaskedColumns(w, mask, size, o, c);
      assert masked[o][c] * x[c] == w[o][c] * kept[c];
    }
    assert Products(masked[o], x) == Products(w[o], kept);
  }

  lemma ReshapeShape(w: Mat, mask: seq<bool>, size: nat)
    requires Width(w, |mask| * size)
    ensures |HeadPruningReshape(w, mask, |mask|, size)| == |w| &&
      Width(HeadPruningReshape(w, mask, |mask|, size), |mask| * size)
  {
  }

  /** Masking rows and masking heads commute. */
  lemma MasksCommute(w: Mat, rows: seq<bool>, heads: seq<bool>, size: nat)
    requires |w| == |rows| && Width(w, |heads| * size)
    ensures |HeadPruningReshape(w, heads, |heads|, size)| == |w|
    ensures HeadPruningReshape(MaskRows(w, rows), heads, |heads|, size) ==
      MaskRows(HeadPruningReshape(w, heads, |heads|, size), rows)
  {
    hide HeadPruningReshape;
    ReshapeShape(w, heads, size);
    ReshapeShape(MaskRows(w, rows), heads, size);
    var a := HeadPruningReshape(MaskRows(w, rows), heads, |heads|, size);
    var b := MaskRows(HeadPruningReshape(w, heads, |heads|, size), rows);
    forall o | 0 <= o < |w| ensures a[o] == b[o] {
      forall c | 0 <= c < |heads| * size ensures a[o][c] == b[o][c] {
        MaskedColumns(MaskRows(w, rows), heads, size, o, c);
        MaskedColumns(w, heads, size, o, c);
      }
    }
  }
}
