/** Structured pruning of linear layers: LinearLayer_Compress of deepspeed/compression/basic_layer.py. */
module Pruning {
  import opened Arithmetic
  import opened LinearAlgebra
  import opened Sequences
  import opened Wrappers

  // ---------------------------------------------------------------------------------------------
  // Boolean-mask indexing
  // ---------------------------------------------------------------------------------------------

  /** `s[mask]`: the elements whose mask bit is set, in order. */
  function Keep<T>(s: seq<T>, mask: seq<bool>): (r: seq<T>)
    requires |s| == |mask|
    ensures |r| == Count(mask)
  {
    if s == [] then []
    else
      var n := |s| - 1;
      Keep(s[..n], mask[..n]) + if mask[n] then [s[n]] else []
  }

  function Count(mask: seq<bool>): (c: nat)
    ensures c <= |mask|
  {
    if mask == [] then 0 else Count(mask[..|mask| - 1]) + if mask[|mask| - 1] then 1 else 0
  }

  /** The position of the k-th set bit. */
  function KeptAt(mask: seq<bool>, k: nat): (i: nat)
    requires k < Count(mask)
    ensures i < |mask| && mask[i]
  {
    var n := |mask| - 1;
    if k < Count(mask[..n]) then KeptAt(mask[..n], k) else n
  }

  lemma {:induction false} KeepAt<T>(s: seq<T>, mask: seq<bool>, k: nat)
    requires |s| == |mask| && k < Count(mask)
    ensures Keep(s, mask)[k] == s[KeptAt(mask, k)]
  {
    var n := |mask| - 1;
    if k < Count(mask[..n]) { KeepAt(s[..n], mask[..n], k); }
  }

  function Bit(b: bool): real { if b then 1.0 else 0.0 }

  // ---------------------------------------------------------------------------------------------
  // Row pruning
  // ---------------------------------------------------------------------------------------------

  function ScaleVec(c: real, v: Vec): (r: Vec)
    ensures |r| == |v| && forall i :: 0 <= i < |v| ==> r[i] == v[i] * c
  {
    seq(|v|, i requires 0 <= i < |v| => v[i] * c)
  }

  /** `weight * mask.view(-1, 1)`. */
  function MaskRows(m: Mat, mask: seq<bool>): (r: Mat)
    requires |m| == |mask|
    ensures |r| == |m|
  {
    seq(|m|, i requires 0 <= i < |m| => ScaleVec(Bit(mask[i]), m[i]))
  }

  /** `bias * mask.view(-1)`. */
  function MaskBias(bias: Option<Vec>, mask: seq<bool>): (r: Option<Vec>)
    requires bias.Some? ==> |bias.value| == |mask|
    ensures r.Some? <==> bias.Some?
    ensures r.Some? ==> |r.value| == |mask|
  {
    match bias
    case None => None
    case Some(b) => Some(seq(|mask|, i requires 0 <= i < |mask| => b[i] * Bit(mask[i])))
  }

  function KeepBias(bias: Option<Vec>, mask: seq<bool>): (r: Option<Vec>)
    requires bias.Some? ==> |bias.value| == |mask|
    ensures r.Some? <==> bias.Some?
    ensures r.Some? ==> |r.value| == Count(mask)
  {
    match bias
    case None => None
    case Some(b) => Some(Keep(b, mask))
  }

  /** `weight[:, mask]`. */
  function KeepColumns(m: Mat, mask: seq<bool>): (r: Mat)
    requires forall i :: 0 <= i < |m| ==> |m[i]| == |mask|
    ensures |r| == |m|
  {
    seq(|m|, i requires 0 <= i < |m| => Keep(m[i], mask))
  }

  /** A masked row contributes its product or nothing. */
  lemma DotMasked(bit: bool, a: Vec, x: Vec)
    requires |a| == |x|
    ensures Dot(ScaleVec(Bit(bit), a), x) == if bit then Dot(a, x) else 0.0
  {
    var scaled := ScaleVec(Bit(bit), a);
    if bit {
      assert scaled == a;
    } else {
      forall i | 0 <= i < |a| ensures Products(scaled, x)[i] == 0.0 { assert scaled[i] == 0.0; }
      SumOfZeros(Products(scaled, x));
    }
  }

  /** Dropping entries that are zero does not change a sum. */
  lemma {:induction false} SumKeep(s: Vec, mask: seq<bool>)
    requires |s| == |mask| && forall i :: 0 <= i < |s| && !mask[i] ==> s[i] == 0.0
    ensures Sum(s) == Sum(Keep(s, mask))
  {
    if s != [] {
      var n := |s| - 1;
      SumKeep(s[..n], mask[..n]);
      var kept := Keep(s[..n], mask[..n]);
      if mask[n] {
        assert (kept + [s[n]])[..|kept|] == kept;
      } else {
        assert Keep(s, mask) == kept && s[n] == 0.0;
      }
    }
  }

  /** Entries masked to zero do not contribute to a product. */
  lemma DotKeep(a: Vec, x: Vec, mask: seq<bool>)
    requires |a| == |x| == |mask|
    requires forall i :: 0 <= i < |x| && !mask[i] ==> x[i] == 0.0
    ensures Dot(a, x) == Dot(Keep(a, mask), Keep(x, mask))
  {
    var products := Products(a, x);
    forall i | 0 <= i < |x| && !mask[i] ensures products[i] == 0.0 { assert x[i] == 0.0; }
    SumKeep(products, mask);
    ProductsKeep(a, x, mask);
  }

  lemma ProductsKeep(a: Vec, x: Vec, mask: seq<bool>)
    requires |a| == |x| == |mask|
    ensures Products(Keep(a, mask), Keep(x, mask)) == Keep(Products(a, x), mask)
  {
    hide Keep, Count, KeptAt;
    var ka, kx, products := Keep(a, mask), Keep(x, mask), Products(a, x);
    forall k | 0 <= k < Count(mask) ensures Products(ka, kx)[k] == Keep(products, mask)[k] {
      var i := KeptAt(mask, k);
      KeepAt(products, mask, k);
      KeepAt(a, mask, k);
      KeepAt(x, mask, k);
      assert ka[k] == a[i] && kx[k] == x[i] && Keep(products, mask)[k] == products[i];
    }
  }

  /** A masked layer computes the full layer's outputs with the pruned rows at zero. */
  lemma MaskedOutputs(weight: Mat, bias: Option<Vec>, mask: seq<bool>, x: Vec)
    requires Width(weight, |x|) && |weight| == |mask| && (bias.Some? ==> |bias.value| == |mask|)
    ensures Width(MaskRows(weight, mask), |x|)
    ensures forall i :: 0 <= i < |mask| ==>
      Linear(MaskRows(weight, mask), MaskBias(bias, mask), x)[i] == if mask[i] then Linear(weight, bias, x)[i] else 0.0
  {
    forall i | 0 <= i < |mask|
      ensures Dot(MaskRows(weight, mask)[i], x) == if mask[i] then Dot(weight[i], x) else 0.0
    {
      DotMasked(mask[i], weight[i], x);
    }
  }

  lemma KeepWidth(m: Mat, mask: seq<bool>, n: nat)
    requires |m| == |mask| && Width(m, n)
    ensures Width(Keep(m, mask), n)
  {
    forall k | 0 <= k < Count(mask) ensures |Keep(m, mask)[k]| == n { KeepAt(m, mask, k); }
  }

  /** A row-reduced layer computes the kept outputs of the full layer. */
  lemma ReducedOutputs(weight: Mat, bias: Option<Vec>, mask: seq<bool>, x: Vec)
    requires Width(weight, |x|) && |weight| == |mask| && (bias.Some? ==> |bias.value| == |mask|)
    ensures Width(Keep(weight, mask), |x|)
    ensures Linear(Keep(weight, mask), KeepBias(bias, mask), x) == Keep(Linear(weight, bias, x), mask)
  {
    KeepWidth(weight, mask, |x|);
    var reduced := Linear(Keep(weight, mask), KeepBias(bias, mask), x);
    forall k | 0 <= k < Count(mask) ensures reduced[k] == Keep(Linear(weight, bias, x), mask)[k] {
      KeepAt(weight, mask, k);
      KeepAt(Linear(weight, bias, x), mask, k);
      if bias.Some? { KeepAt(bias.value, mask, k); }
    }
  }

  /** Removing rows of F1 and the matching columns of F2 computes the same as masking the rows of F1, for any
      pointwise activation in between that maps zero to zero. */
  lemma RowPruningPreservesMeaning(w1: Mat, b1: Option<Vec>, w2: Mat, b2: Option<Vec>, mask: seq<bool>,
                                   f: real -> real, x: Vec)
    requires Width(w1, |x|) && |w1| == |mask| && (b1.Some? ==> |b1.value| == |mask|)
    requires Width(w2, |mask|) && (b2.Some? ==> |b2.value| == |w2|) && f(0.0) == 0.0
    ensures Width(MaskRows(w1, mask), |x|) && Width(Keep(w1, mask), |x|) && Width(KeepColumns(w2, mask), Count(mask))
    ensures Linear(KeepColumns(w2, mask), b2, Pointwise(f, Linear(Keep(w1, mask), KeepBias(b1, mask), x))) ==
            Linear(w2, b2, Pointwise(f, Linear(MaskRows(w1, mask), MaskBias(b1, mask), x)))
  {
    hide Dot, Keep, Count;
    KeptHidden(w1, b1, mask, f, x);
    var masked := Pointwise(f, Linear(MaskRows(w1, mask), MaskBias(b1, mask), x));
    ColumnsKeep(w2, b2, masked, mask);
  }

  /** A column-reduced layer on the kept entries equals the full layer when the other entries are zero. */
  lemma ColumnsKeep(w: Mat, b: Option<Vec>, x: Vec, mask: seq<bool>)
    requires Width(w, |x|) && |x| == |mask| && (b.Some? ==> |b.value| == |w|)
    requires forall i :: 0 <= i < |mask| && !mask[i] ==> x[i] == 0.0
    ensures Width(KeepColumns(w, mask), Count(mask))
    ensures Linear(KeepColumns(w, mask), b, Keep(x, mask)) == Linear(w, b, x)
  {
    hide Dot, Keep, Count;
    forall o | 0 <= o < |w| ensures Dot(KeepColumns(w, mask)[o], Keep(x, mask)) == Dot(w[o], x) {
      DotKeep(w[o], x, mask);
    }
    assert Apply(KeepColumns(w, mask), Keep(x, mask)) == Apply(w, x);
  }

  /** Between the two layers: the reduced hidden vector is the kept part of the masked one, which is zero
      elsewhere. */
  lemma KeptHidden(w1: Mat, b1: Option<Vec>, mask: seq<bool>, f: real -> real, x: Vec)
    requires Width(w1, |x|) && |w1| == |mask| && (b1.Some? ==> |b1.value| == |mask|) && f(0.0) == 0.0
    ensures Width(MaskRows(w1, mask), |x|) && Width(Keep(w1, mask), |x|)
    ensures var masked := Pointwise(f, Linear(MaskRows(w1, mask), MaskBias(b1, mask), x));
      Pointwise(f, Linear(Keep(w1, mask), KeepBias(b1, mask), x)) == Keep(masked, mask) &&
      forall i :: 0 <= i < |mask| && !mask[i] ==> masked[i] == 0.0
  {
    MaskedOutputs(w1, b1, mask, x);
    ReducedOutputs(w1, b1, mask, x);
    var full := Linear(w1, b1, x);
    var masked := Pointwise(f, Linear(MaskRows(w1, mask), MaskBias(b1, mask), x));
    var reduced := Pointwise(f, Linear(Keep(w1, mask), KeepBias(b1, mask), x));
    forall k | 0 <= k < Count(mask) ensures reduced[k] == Keep(masked, mask)[k] {
      KeepAt(masked, mask, k);
      KeepAt(full, mask, k);
    }
  }

  // ---------------------------------------------------------------------------------------------
  // Reshaping
  // ---------------------------------------------------------------------------------------------

  /** Stretch i of `size` elements out of `count`. */
  function Stretch<T>(s: seq<T>, i: nat, count: nat, size: nat): (r: seq<T>)
    requires |s| == count * size && i < count
    ensures |r| == size && 0 <= i * size <= i * size + size <= |s| && r == s[i * size..i * size + size]
  {
    RowFits(i, count, size);
    s[i * size..i * size + size]
  }

  /** A flat tensor viewed as `count` rows of `size` entries. */
  function Rows(flat: Vec, count: nat, size: nat): (m: Mat)
    requires |flat| == count * size
    ensures |m| == count && forall i :: 0 <= i < count ==> |m[i]| == size
  {
    seq(count, i requires 0 <= i < count && |flat| == count * size => Stretch(flat, i, count, size))
  }

  lemma RowFits(i: nat, n: nat, size: nat)
    requires i < n
    ensures 0 <= i * size <= i * size + size <= n * size
  {
    if size > 0 { IndexBound(i, n, size, size - 1); }
  }

  function Transpose(m: Mat, width: nat): (t: Mat)
    requires forall i :: 0 <= i < |m| ==> |m[i]| == width
    ensures |t| == width && forall j :: 0 <= j < width ==> |t[j]| == |m|
    ensures forall i, j :: 0 <= i < |m| && 0 <= j < width ==> t[j][i] == m[i][j]
  {
    seq(width, j requires 0 <= j < width => seq(|m|, i requires 0 <= i < |m| => m[i][j]))
  }

  lemma {:induction false} JoinLength<T>(blocks: seq<seq<T>>, size: nat)
    requires forall g :: 0 <= g < |blocks| ==> |blocks[g]| == size
    ensures |Flatten(blocks)| == |blocks| * size
  {
    if blocks != [] {
      JoinLength(blocks[..|blocks| - 1], size);
      Distribute(|blocks|, 1, size);
    }
  }

  /** A stretch of whole rows, flattened. */
  lemma FlatSlice(m: Mat, n: nat, lo: nat, hi: nat)
    requires Width(m, n) && lo <= hi <= |m|
    ensures 0 <= lo * n <= hi * n <= |Flatten(m)| && Flatten(m)[lo * n..hi * n] == Flatten(m[lo..hi])
  {
    var a, b, c := m[..lo], m[lo..hi], m[hi..];
    assert m == a + b + c;
    FlattenConcat(a + b, c);
    FlattenConcat(a, b);
    JoinLength(a, n);
    JoinLength(b, n);
    Distribute(hi, lo, n);
  }

  /** Flattening and viewing as rows again. */
  lemma RowsOfJoin(m: Mat, n: nat)
    requires Width(m, n)
    ensures |Flatten(m)| == |m| * n && Rows(Flatten(m), |m|, n) == m
  {
    hide Flatten;
    JoinLength(m, n);
    forall i | 0 <= i < |m| ensures Rows(Flatten(m), |m|, n)[i] == m[i] {
      FlatSlice(m, n, i, i + 1);
      Distribute(i, 1, n);
      assert m[i..i + 1] == [m[i]];
      FlattenOne(m[i]);
    }
  }

  /** The rows of one head. */
  function Blocks(m: Mat, heads: nat, size: nat): (blocks: seq<Mat>)
    requires |m| == heads * size
    ensures |blocks| == heads && forall h :: 0 <= h < heads ==> |blocks[h]| == size
  {
    seq(heads, h requires 0 <= h < heads && |m| == heads * size => Stretch(m, h, heads, size))
  }

  /** `reshape(heads, -1)`: row h holds the flattened rows of head h. */
  lemma HeadRows(m: Mat, heads: nat, size: nat, n: nat)
    requires |m| == heads * size && Width(m, n)
    ensures |Flatten(m)| == heads * (size * n)
    ensures forall h :: 0 <= h < heads ==> Rows(Flatten(m), heads, size * n)[h] == Flatten(Blocks(m, heads, size)[h])
  {
    JoinLength(m, n);
    MulAssoc(heads, size, n);
    forall h | 0 <= h < heads ensures Rows(Flatten(m), heads, size * n)[h] == Flatten(Blocks(m, heads, size)[h]) {
      RowFits(h, heads, size);
      FlatSlice(m, n, h * size, h * size + size);
      MulAssoc(h, size, n);
      Distribute(h * size, size, n);
    }
  }

  /** Flattening a list of flattened blocks flattens their join. */
  lemma {:induction false} FlatOfFlats(rows: Mat, blocks: seq<Mat>)
    requires |rows| == |blocks| && forall h :: 0 <= h < |rows| ==> rows[h] == Flatten(blocks[h])
    ensures Flatten(rows) == Flatten(Flatten(blocks))
  {
    if rows != [] {
      var n := |rows| - 1;
      FlatOfFlats(rows[..n], blocks[..n]);
      FlattenConcat(Flatten(blocks[..n]), blocks[n]);
    }
  }

  lemma BlocksWidth(m: Mat, heads: nat, size: nat, n: nat)
    requires |m| == heads * size && Width(m, n)
    ensures forall h :: 0 <= h < heads ==> Width(Blocks(m, heads, size)[h], n)
  {
    forall h, i | 0 <= h < heads && 0 <= i < size ensures |Blocks(m, heads, size)[h][i]| == n {
      RowFits(h, heads, size);
    }
  }

  // ---------------------------------------------------------------------------------------------
  // Head pruning of the weights
  // ---------------------------------------------------------------------------------------------

  /** The heads whose mask bit is clear are scaled to zero. */
  ghost function ScaledBlocks(blocks: seq<Mat>, mask: seq<bool>): (r: seq<Mat>)
    requires |blocks| == |mask|
    ensures |r| == |blocks| && forall h :: 0 <= h < |blocks| ==> |r[h]| == |blocks[h]|
  {
    seq(|blocks|, h requires 0 <= h < |blocks| =>
      seq(|blocks[h]|, i requires 0 <= i < |blocks[h]| => ScaleVec(Bit(mask[h]), blocks[h][i])))
  }

  /** `head_pruning_reshape`: transpose, view as one row a head, mask, view back, transpose. */
  function HeadPruningReshape(w: Mat, mask: seq<bool>, heads: nat, size: nat): (r: Mat)
    requires |mask| == heads && forall i :: 0 <= i < |w| ==> |w[i]| == heads * size
  {
    var t := Transpose(w, heads * size);
    JoinLength(t, |w|);
    MulAssoc(heads, size, |w|);
    var masked := MaskRows(Rows(Flatten(t), heads, size * |w|), mask);
    JoinLength(masked, size * |w|);
    Transpose(Rows(Flatten(masked), heads * size, |w|), |w|)
  }

  /** The dimension-reduced O matrix: transpose, view as one row a head, drop rows, view back, transpose. */
  function ReducedO(w: Mat, mask: seq<bool>, heads: nat, size: nat): (r: Mat)
    requires |mask| == heads && forall i :: 0 <= i < |w| ==> |w[i]| == heads * size
  {
    Transpose(ReducedRows(Transpose(w, heads * size), mask, heads, size, |w|), |w|)
  }

  /** The dimension-reduced Q, K or V matrix: `reshape(heads, -1)[mask, :].reshape(-1, width)`. */
  function ReducedRows(w: Mat, mask: seq<bool>, heads: nat, size: nat, width: nat): (r: Mat)
    requires |mask| == heads && |w| == heads * size && forall i :: 0 <= i < |w| ==> |w[i]| == width
    ensures |r| == Count(mask) * size && forall i :: 0 <= i < |r| ==> |r[i]| == width
  {
    Rows(KeptEntries(w, mask, heads, size, width), Count(mask) * size, width)
  }

  function KeptEntries(w: Mat, mask: seq<bool>, heads: nat, size: nat, width: nat): (r: Vec)
    requires |mask| == heads && |w| == heads * size && forall i :: 0 <= i < |w| ==> |w[i]| == width
    ensures |r| == (Count(mask) * size) * width
  {
    JoinLength(w, width);
    MulAssoc(heads, size, width);
    var rows := Rows(Flatten(w), heads, size * width);
    KeepWidth(rows, mask, size * width);
    JoinLength(Keep(rows, mask), size * width);
    MulAssoc(Count(mask), size, width);
    Flatten(Keep(rows, mask))
  }

  /** The dimension-reduced bias: `reshape(heads, -1)[mask, :].reshape(-1)`. */
  function ReducedBias(bias: Vec, mask: seq<bool>, heads: nat, size: nat): Vec
    requires |mask| == heads && |bias| == heads * size
  {
    Flatten(Keep(Rows(bias, heads, size), mask))
  }

  /** Masking through the reshaped view scales whole heads of the transposed matrix. */
  lemma MaskedRowsAreScaledBlocks(t: Mat, mask: seq<bool>, heads: nat, size: nat, width: nat)
    requires |mask| == heads && |t| == heads * size && Width(t, width)
    ensures |Flatten(t)| == heads * (size * width)
    ensures var masked := MaskRows(Rows(Flatten(t), heads, size * width), mask);
      |Flatten(masked)| == (heads * size) * width &&
      Rows(Flatten(masked), heads * size, width) == Flatten(ScaledBlocks(Blocks(t, heads, size), mask))
  {
    HeadRows(t, heads, size, width);
    BlocksWidth(t, heads, size, width);
    var blocks := Blocks(t, heads, size);
    var scaled := ScaledBlocks(blocks, mask);
    var masked := MaskRows(Rows(Flatten(t), heads, size * width), mask);
    forall h | 0 <= h < heads ensures masked[h] == Flatten(scaled[h]) {
      FlatScaled(blocks[h], scaled[h], Bit(mask[h]));
    }
    FlatOfFlats(masked, scaled);
    JoinLength(scaled, size);
    ScaledWidth(blocks, mask, width);
    JoinWidth(scaled, width);
    RowsOfJoin(Flatten(scaled), width);
  }

  lemma ScaledWidth(blocks: seq<Mat>, mask: seq<bool>, width: nat)
    requires |blocks| == |mask| && forall h :: 0 <= h < |blocks| ==> Width(blocks[h], width)
    ensures forall h :: 0 <= h < |blocks| ==> Width(ScaledBlocks(blocks, mask)[h], width)
  {
  }

  lemma {:induction false} FlatScaled(m: Mat, scaled: Mat, c: real)
    requires |scaled| == |m| && forall i :: 0 <= i < |m| ==> scaled[i] == ScaleVec(c, m[i])
    ensures Flatten(scaled) == ScaleVec(c, Flatten(m))
  {
    if m != [] {
      var n := |m| - 1;
      FlatScaled(m[..n], scaled[..n], c);
      var whole, left := ScaleVec(c, Flatten(m)), ScaleVec(c, Flatten(m[..n]));
      forall i | 0 <= i < |whole| ensures whole[i] == (left + scaled[n])[i] {
        if i < |left| { assert Flatten(m)[i] == Flatten(m[..n])[i]; } else { assert Flatten(m)[i] == m[n][i - |left|]; }
      }
    }
  }

  /** Dropping rows of the reshaped view drops whole heads. */
  lemma ReducedRowsAreKeptBlocks(w: Mat, mask: seq<bool>, heads: nat, size: nat, width: nat)
    requires |mask| == heads && |w| == heads * size && Width(w, width)
    ensures ReducedRows(w, mask, heads, size, width) == Flatten(Keep(Blocks(w, heads, size), mask))
  {
    HeadRows(w, heads, size, width);
    BlocksWidth(w, heads, size, width);
    var rows, blocks := Rows(Flatten(w), heads, size * width), Blocks(w, heads, size);
    var keptRows, keptBlocks := Keep(rows, mask), Keep(blocks, mask);
    forall k | 0 <= k < Count(mask)
      ensures keptRows[k] == Flatten(keptBlocks[k]) && |keptBlocks[k]| == size && Width(keptBlocks[k], width)
    {
      KeepAt(rows, mask, k);
      KeepAt(blocks, mask, k);
    }
    FlatOfFlats(keptRows, keptBlocks);
    JoinLength(keptBlocks, size);
    JoinWidth(keptBlocks, width);
    RowsOfJoin(Flatten(keptBlocks), width);
  }

  lemma {:induction false} JoinBlock<T>(blocks: seq<seq<T>>, size: nat, h: nat)
    requires forall g :: 0 <= g < |blocks| ==> |blocks[g]| == size
    requires h < |blocks|
    ensures 0 <= h * size <= h * size + size <= |Flatten(blocks)| &&
      Flatten(blocks)[h * size..h * size + size] == blocks[h]
  {
    var n := |blocks| - 1;
    JoinLength(blocks[..n], size);
    if h < n { JoinBlock(blocks[..n], size, h); }
  }

  // ---------------------------------------------------------------------------------------------
  // Head pruning preserves the attention output
  // ---------------------------------------------------------------------------------------------

  /** Entry o of every row: row o of the transposed matrix. */
  ghost function Column(m: Mat, o: nat): (c: Vec)
    ensures |c| == |m|
  {
    seq(|m|, i requires 0 <= i < |m| => if o < |m[i]| then m[i][o] else 0.0)
  }

  ghost function Dots(cols: seq<Vec>, outs: seq<Vec>): (d: Vec)
    requires |cols| == |outs| && forall h :: 0 <= h < |cols| ==> |cols[h]| == |outs[h]|
    ensures |d| == |cols| && forall h :: 0 <= h < |cols| ==> d[h] == Dot(cols[h], outs[h])
  {
    seq(|cols|, h requires 0 <= h < |cols| => Dot(cols[h], outs[h]))
  }

  /** A product of joined vectors is the sum of the products. */
  lemma {:induction false} DotJoin(cols: seq<Vec>, outs: seq<Vec>)
    requires |cols| == |outs| && forall h :: 0 <= h < |cols| ==> |cols[h]| == |outs[h]|
    ensures |Flatten(cols)| == |Flatten(outs)| && Dot(Flatten(cols), Flatten(outs)) == Sum(Dots(cols, outs))
  {
    hide Dot;
    if cols == [] {
      EmptyDot();
    } else {
      var n := |cols| - 1;
      DotJoin(cols[..n], outs[..n]);
      DotConcat(Flatten(cols[..n]), cols[n], Flatten(outs[..n]), outs[n]);
      assert Dots(cols, outs)[..n] == Dots(cols[..n], outs[..n]);
    }
  }

  lemma EmptyDot()
    ensures Dot([], []) == 0.0
  {
  }

  ghost function Columns(blocks: seq<Mat>, o: nat): (cols: seq<Vec>)
    ensures |cols| == |blocks| && forall h :: 0 <= h < |blocks| ==> cols[h] == Column(blocks[h], o)
  {
    seq(|blocks|, h requires 0 <= h < |blocks| => Column(blocks[h], o))
  }

  lemma {:induction false} ColumnOfJoin(blocks: seq<Mat>, o: nat)
    ensures Column(Flatten(blocks), o) == Flatten(Columns(blocks, o))
  {
    if blocks != [] {
      var n := |blocks| - 1;
      ColumnOfJoin(blocks[..n], o);
      assert Columns(blocks, o)[..n] == Columns(blocks[..n], o);
      assert Flatten(blocks) == Flatten(blocks[..n]) + blocks[n];
    }
  }

  /** One output: scaling pruned heads to zero is the same as leaving them out. */
  lemma HeadsProduct(blocks: seq<Mat>, mask: seq<bool>, outs: seq<Vec>, width: nat, o: nat)
    requires |blocks| == |mask| == |outs| && o < width
    requires forall h :: 0 <= h < |blocks| ==> |outs[h]| == |blocks[h]| && Width(blocks[h], width)
    ensures Width(Flatten(ScaledBlocks(blocks, mask)), width) && Width(Flatten(Keep(blocks, mask)), width)
    ensures |Flatten(ScaledBlocks(blocks, mask))| == |Flatten(outs)| &&
      |Flatten(Keep(blocks, mask))| == |Flatten(Keep(outs, mask))|
    ensures Dot(Column(Flatten(ScaledBlocks(blocks, mask)), o), Flatten(outs)) ==
            Dot(Column(Flatten(Keep(blocks, mask)), o), Flatten(Keep(outs, mask)))
  {
    hide Dot;
    var scaled, kept, keptOuts := ScaledBlocks(blocks, mask), Keep(blocks, mask), Keep(outs, mask);
    ScaledWidth(blocks, mask, width);
    KeptBlocks(blocks, outs, mask, width);
    JoinWidth(scaled, width);
    JoinWidth(kept, width);
    ColumnOfJoin(scaled, o);
    ColumnOfJoin(kept, o);
    DotJoin(Columns(scaled, o), outs);
    DotJoin(Columns(kept, o), keptOuts);
    ScaledDots(blocks, mask, outs, width, o);
    KeptDots(blocks, mask, outs, width, o);
    var dots := Dots(Columns(scaled, o), outs);
    SumKeep(dots, mask);
  }

  lemma KeptBlocks(blocks: seq<Mat>, outs: seq<Vec>, mask: seq<bool>, width: nat)
    requires |blocks| == |mask| == |outs|
    requires forall h :: 0 <= h < |blocks| ==> |outs[h]| == |blocks[h]| && Width(blocks[h], width)
    ensures forall k :: 0 <= k < Count(mask) ==>
      |Keep(outs, mask)[k]| == |Keep(blocks, mask)[k]| && Width(Keep(blocks, mask)[k], width)
  {
    forall k | 0 <= k < Count(mask)
      ensures |Keep(outs, mask)[k]| == |Keep(blocks, mask)[k]| && Width(Keep(blocks, mask)[k], width)
    {
      KeepAt(blocks, mask, k);
      KeepAt(outs, mask, k);
    }
  }

  /** A pruned head's product is zero, a kept head's is unchanged. */
  lemma ScaledDots(blocks: seq<Mat>, mask: seq<bool>, outs: seq<Vec>, width: nat, o: nat)
    requires |blocks| == |mask| == |outs| && o < width
    requires forall h :: 0 <= h < |blocks| ==> |outs[h]| == |blocks[h]| && Width(blocks[h], width)
    ensures forall h :: 0 <= h < |blocks| ==>
      |ScaledBlocks(blocks, mask)[h]| == |outs[h]| && Width(ScaledBlocks(blocks, mask)[h], width) &&
      Dot(Column(ScaledBlocks(blocks, mask)[h], o), outs[h]) ==
        if mask[h] then Dot(Column(blocks[h], o), outs[h]) else 0.0
  {
    hide Dot;
    ScaledWidth(blocks, mask, width);
    forall h | 0 <= h < |blocks|
      ensures Dot(Column(ScaledBlocks(blocks, mask)[h], o), outs[h]) ==
        if mask[h] then Dot(Column(blocks[h], o), outs[h]) else 0.0
    {
      DotMasked(mask[h], Column(blocks[h], o), outs[h]);
      assert Column(ScaledBlocks(blocks, mask)[h], o) == ScaleVec(Bit(mask[h]), Column(blocks[h], o));
    }
  }

  lemma KeptDots(blocks: seq<Mat>, mask: seq<bool>, outs: seq<Vec>, width: nat, o: nat)
    requires |blocks| == |mask| == |outs| && o < width
    requires forall h :: 0 <= h < |blocks| ==> |outs[h]| == |blocks[h]| && Width(blocks[h], width)
    ensures forall h ::
      0 <= h < |blocks| ==> |ScaledBlocks(blocks, mask)[h]| == |outs[h]| && Width(ScaledBlocks(blocks, mask)[h], width)
    ensures forall k :: 0 <= k < Count(mask) ==>
      |Keep(outs, mask)[k]| == |Keep(blocks, mask)[k]| && Width(Keep(blocks, mask)[k], width)
    ensures Dots(Columns(Keep(blocks, mask), o), Keep(outs, mask)) ==
            Keep(Dots(Columns(ScaledBlocks(blocks, mask), o), outs), mask)
  {
    hide Dot;
    ScaledWidth(blocks, mask, width);
    KeptBlocks(blocks, outs, mask, width);
    ScaledDots(blocks, mask, outs, width, o);
    var all := Dots(Columns(ScaledBlocks(blocks, mask), o), outs);
    var kept := Dots(Columns(Keep(blocks, mask), o), Keep(outs, mask));
    forall k | 0 <= k < Count(mask) ensures kept[k] == Keep(all, mask)[k] {
      KeepAt(blocks, mask, k);
      KeepAt(outs, mask, k);
      KeepAt(all, mask, k);
    }
  }
}
