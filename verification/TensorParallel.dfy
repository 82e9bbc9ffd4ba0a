/** Tensor-parallel linear layers: the column- and row-parallel layers, _split, _gather and _reduce of
    deepspeed/compression/basic_layer.py. The state of a group of ranks is a list, one entry a rank; the
    leading dimensions of an input are independent, so one input row stands for all. */
module TensorParallel {
  import opened Arithmetic
  import opened LinearAlgebra
  import opened Sequences
  import opened Wrappers

  // ---------------------------------------------------------------------------------------------
  // _split, _gather, _reduce
  // ---------------------------------------------------------------------------------------------

  /** `split_tensor_along_last_dim`: fails exactly for no partitions (a division by zero) and when the size is not
      divisible; the chunks joined are the tensor. */
  method SplitTensorAlongLastDim(x: Vec, n: nat) returns (chunks: Option<seq<Vec>>)
    ensures chunks.Some? <==> n > 0 && |x| % n == 0
    ensures chunks.Some? ==> IsSplit(chunks.value, x, n)
  {
    if n == 0 || |x| % n != 0 { return None; }
    var size := |x| / n;
    assert |x| == n * size;
    var list: seq<Vec> := [];
    for r := 0 to n
      invariant |list| == r && r * size <= |x| && Flatten(list) == x[..r * size]
      invariant forall k :: 0 <= k < r ==> |list[k]| == size
    {
      Distribute(r, 1, size);
      Distribute(n, r + 1, size);
      ChunkFits(r, n, size);
      var chunk := x[r * size..r * size + size];
      assert (list + [chunk])[..|list + [chunk]| - 1] == list;
      assert x[..r * size] + chunk == x[..r * size + size];
      list := list + [chunk];
    }
    assert x[..|x|] == x;
    chunks := Some(list);
  }

  lemma ChunkFits(r: nat, n: nat, size: nat)
    requires r < n
    ensures r * size + size <= n * size
  {
    Distribute(n, r + 1, size);
    Distribute(r, 1, size);
    if size > 0 { ProductSign(n - (r + 1), size); }
  }

  /** n equal chunks that make up x. */
  ghost predicate IsSplit(chunks: seq<Vec>, x: Vec, n: nat) {
    |chunks| == n > 0 && Flatten(chunks) == x && forall r :: 0 <= r < n ==> |chunks[r]| == |chunks[0]|
  }

  /** `_split` at one rank: the bypass for a single rank, else the rank's own chunk. */
  method Split(x: Vec, world: nat, rank: nat) returns (output: Option<Vec>)
    requires rank < world
    ensures output.Some? <==> world == 1 || |x| % world == 0
    ensures output.Some? ==> exists chunks :: IsSplit(chunks, x, world) && output.value == chunks[rank]
  {
    if world == 1 {
      assert Flatten([x][..0]) == [] && Flatten([x]) == x;
      assert IsSplit([x], x, 1);
      return Some(x);
    }
    var chunks := SplitTensorAlongLastDim(x, world);
    if chunks.None? { return None; }
    output := Some(chunks.value[rank]);
  }

  /** `_gather` at one rank. The collective fills the list with every rank's tensor. */
  method Gather(inputs: seq<Vec>, rank: nat) returns (output: Vec)
    requires rank < |inputs|
    ensures output == Flatten(inputs)
  {
    if |inputs| == 1 {
      assert Flatten(inputs[..0]) == [];
      return inputs[0];
    }
    var list: seq<Vec> := seq(|inputs|, _ => []);
    list := list[rank := inputs[rank]];
    for r := 0 to |inputs|
      invariant |list| == |inputs| && forall k :: 0 <= k < r ==> list[k] == inputs[k]
    {
      list := list[r := inputs[r]];
    }
    assert list == inputs;
    output := [];
    for r := 0 to |list|
      invariant output == Flatten(list[..r])
    {
      assert list[..r + 1][..r] == list[..r];
      output := output + list[r];
    }
    assert list[..|list|] == list;
  }

  /** The sum over the ranks, entry by entry. */
  ghost function SumOver(inputs: seq<Vec>, n: nat): (y: Vec)
    requires forall r :: 0 <= r < |inputs| ==> |inputs[r]| == n
    ensures |y| == n
  {
    if inputs == [] then seq(n, _ => 0.0) else Add(SumOver(inputs[..|inputs| - 1], n), inputs[|inputs| - 1])
  }

  /** `_reduce` on the tensors of all ranks: each is overwritten with the sum; a single rank is bypassed. */
  method Reduce(tensors: array<Vec>, n: nat)
    requires tensors.Length > 0 && forall r :: 0 <= r < tensors.Length ==> |tensors[r]| == n
    modifies tensors
    ensures forall r ::
      0 <= r < tensors.Length ==> |old(tensors[..])[r]| == n && tensors[r] == SumOver(old(tensors[..]), n)
  {
    ghost var inputs := tensors[..];
    if tensors.Length == 1 {
      assert SumOver(inputs[..0], n) == seq(n, _ => 0.0);
      assert Add(SumOver(inputs[..0], n), inputs[0]) == inputs[0];
      return;
    }
    var sum: Vec := seq(n, _ => 0.0);
    for r := 0 to tensors.Length
      invariant tensors[..] == inputs && sum == SumOver(inputs[..r], n)
    {
      assert inputs[..r + 1][..r] == inputs[..r];
      sum := seq(n, i requires 0 <= i < n && |sum| == n && |tensors[r]| == n reads tensors => sum[i] + tensors[r][i]);
    }
    assert inputs[..tensors.Length] == inputs;
    for r := 0 to tensors.Length
      invariant forall k :: 0 <= k < r ==> tensors[k] == sum
    {
      tensors[r] := sum;
    }
  }

  // ---------------------------------------------------------------------------------------------
  // Column-parallel layer
  // ---------------------------------------------------------------------------------------------

  /** Every rank holds a block of the weight's rows, and the matching block of the bias. */
  ghost predicate ColumnShards(weights: seq<Mat>, biases: Option<seq<Vec>>, inSize: nat) {
    (forall r :: 0 <= r < |weights| ==> Width(weights[r], inSize)) &&
    (biases.Some? ==>
      |biases.value| == |weights| && forall r :: 0 <= r < |weights| ==> |biases.value[r]| == |weights[r]|)
  }

  ghost function BiasOf(biases: Option<seq<Vec>>, r: nat): Option<Vec>
    requires biases.Some? ==> r < |biases.value|
  {
    match biases
    case None => None
    case Some(b) => Some(b[r])
  }

  ghost function JoinedBias(biases: Option<seq<Vec>>): Option<Vec> {
    match biases
    case None => None
    case Some(b) => Some(Flatten(b))
  }

  /** The output of every rank before gathering; with skip_bias_add the bias is left to the caller. */
  ghost function ColumnOutputs(weights: seq<Mat>, biases: Option<seq<Vec>>, x: Vec, skipBias: bool): (ys: seq<Vec>)
    requires ColumnShards(weights, biases, |x|)
    ensures |ys| == |weights| && forall r :: 0 <= r < |ys| ==> |ys[r]| == |weights[r]|
  {
    seq(|weights|, r requires 0 <= r < |weights| => Linear(weights[r], if skipBias then None else BiasOf(biases, r), x))
  }

  lemma {:induction false} JoinLengths(biases: seq<Vec>, weights: seq<Mat>)
    requires |biases| == |weights| && forall r :: 0 <= r < |weights| ==> |biases[r]| == |weights[r]|
    ensures |Flatten(biases)| == |Flatten(weights)|
  {
    if weights != [] { JoinLengths(biases[..|biases| - 1], weights[..|weights| - 1]); }
  }

  ghost function BiasConcat(a: Option<Vec>, b: Option<Vec>): Option<Vec> {
    if a.Some? && b.Some? then Some(a.value + b.value) else None
  }

  lemma LinearConcat(a: Mat, b: Mat, c: Option<Vec>, d: Option<Vec>, x: Vec)
    requires Width(a, |x|) && Width(b, |x|) && (c.Some? <==> d.Some?)
    requires c.Some? ==> |c.value| == |a| && |d.value| == |b|
    ensures Width(a + b, |x|)
    ensures Linear(a + b, BiasConcat(c, d), x) == Linear(a, c, x) + Linear(b, d, x)
  {
    hide Dot;
    ApplyConcat(a, b, x);
  }

  /** Gathering the column-parallel outputs gives the unsharded layer, bias included exactly once. */
  lemma {:induction false} ColumnParallelIsSerial(weights: seq<Mat>, biases: Option<seq<Vec>>, x: Vec, skipBias: bool)
    requires ColumnShards(weights, biases, |x|)
    ensures Width(Flatten(weights), |x|)
    ensures biases.Some? ==> |Flatten(biases.value)| == |Flatten(weights)|
    ensures Flatten(ColumnOutputs(weights, biases, x, skipBias)) ==
            Linear(Flatten(weights), if skipBias then None else JoinedBias(biases), x)
  {
    JoinWidth(weights, |x|);
    if biases.Some? { JoinLengths(biases.value, weights); }
    if weights != [] {
      var n := |weights| - 1;
      var restBias := if biases.None? then None else Some(biases.value[..n]);
      ColumnParallelIsSerial(weights[..n], restBias, x, skipBias);
      var ys := ColumnOutputs(weights, biases, x, skipBias);
      assert ys[..n] == ColumnOutputs(weights[..n], restBias, x, skipBias);
      LinearConcat(Flatten(weights[..n]), weights[n], if skipBias then None else JoinedBias(restBias),
                   if skipBias then None else BiasOf(biases, n), x);
    }
  }

  // ---------------------------------------------------------------------------------------------
  // Row-parallel layer
  // ---------------------------------------------------------------------------------------------

  /** Every rank holds a block of the weight's columns, matching its chunk of the input. */
  ghost predicate RowShards(weights: seq<Mat>, outSize: nat, xs: seq<Vec>) {
    |weights| == |xs| && forall r :: 0 <= r < |weights| ==> |weights[r]| == outSize && Width(weights[r], |xs[r]|)
  }

  /** The unsharded weight: the column blocks side by side. */
  ghost function SideBySide(weights: seq<Mat>, outSize: nat): (m: Mat)
    requires forall r :: 0 <= r < |weights| ==> |weights[r]| == outSize
    ensures |m| == outSize
  {
    if weights == [] then seq(outSize, _ => [])
    else
      var left := SideBySide(weights[..|weights| - 1], outSize);
      var right := weights[|weights| - 1];
      seq(outSize, o requires 0 <= o < outSize => left[o] + right[o])
  }

  /** The partial products, without bias. */
  ghost function RowPartials(weights: seq<Mat>, outSize: nat, xs: seq<Vec>): (ys: seq<Vec>)
    requires RowShards(weights, outSize, xs)
    ensures |ys| == |weights| && forall r :: 0 <= r < |ys| ==> |ys[r]| == outSize
  {
    seq(|weights|, r requires 0 <= r < |weights| => Apply(weights[r], xs[r]))
  }

  lemma {:induction false} SideBySideWidth(weights: seq<Mat>, outSize: nat, xs: seq<Vec>)
    requires RowShards(weights, outSize, xs)
    ensures Width(SideBySide(weights, outSize), |Flatten(xs)|)
  {
    if weights != [] {
      SideBySideWidth(weights[..|weights| - 1], outSize, xs[..|xs| - 1]);
    }
  }

  /** All-reducing the partial products gives the unsharded product. */
  lemma {:induction false} PartialsSumUp(weights: seq<Mat>, outSize: nat, xs: seq<Vec>)
    requires RowShards(weights, outSize, xs)
    ensures Width(SideBySide(weights, outSize), |Flatten(xs)|)
    ensures SumOver(RowPartials(weights, outSize, xs), outSize) == Apply(SideBySide(weights, outSize), Flatten(xs))
  {
    SideBySideWidth(weights, outSize, xs);
    var full := SideBySide(weights, outSize);
    if weights == [] {
      assert forall o :: 0 <= o < outSize ==> Dot(full[o], Flatten(xs)) == 0.0;
    } else {
      var n := |weights| - 1;
      PartialsSumUp(weights[..n], outSize, xs[..n]);
      var ys := RowPartials(weights, outSize, xs);
      assert ys[..n] == RowPartials(weights[..n], outSize, xs[..n]);
      var left := SideBySide(weights[..n], outSize);
      forall o | 0 <= o < outSize
        ensures Dot(full[o], Flatten(xs)) == Dot(left[o], Flatten(xs[..n])) + Dot(weights[n][o], xs[n])
      {
        DotConcat(left[o], weights[n][o], Flatten(xs[..n]), xs[n]);
      }
    }
  }

  /** The row-parallel layer: partial products, all-reduce, then the bias once. Every rank returns the same. */
  ghost function RowOutput(weights: seq<Mat>, bias: Option<Vec>, outSize: nat, xs: seq<Vec>, skipBias: bool): Vec
    requires RowShards(weights, outSize, xs) && (bias.Some? ==> |bias.value| == outSize)
  {
    var sum := SumOver(RowPartials(weights, outSize, xs), outSize);
    if skipBias || bias.None? then sum else Add(sum, bias.value)
  }

  /** The row-parallel layer on split input is the unsharded layer, bias included exactly once. */
  lemma RowParallelIsSerial(weights: seq<Mat>, bias: Option<Vec>, outSize: nat, x: Vec, xs: seq<Vec>, skipBias: bool)
    requires RowShards(weights, outSize, xs) && IsSplit(xs, x, |weights|) && (bias.Some? ==> |bias.value| == outSize)
    ensures Width(SideBySide(weights, outSize), |x|)
    ensures RowOutput(weights, bias, outSize, xs, skipBias) ==
            Linear(SideBySide(weights, outSize), if skipBias then None else bias, x)
  {
    PartialsSumUp(weights, outSize, xs);
  }

  // ---------------------------------------------------------------------------------------------
  // Column into row
  // ---------------------------------------------------------------------------------------------

  lemma {:induction false} PointwiseJoin(f: real -> real, ys: seq<Vec>)
    ensures Flatten(seq(|ys|, r requires 0 <= r < |ys| => Pointwise(f, ys[r]))) == Pointwise(f, Flatten(ys))
  {
    var zs := seq(|ys|, r requires 0 <= r < |ys| => Pointwise(f, ys[r]));
    if ys != [] {
      var n := |ys| - 1;
      PointwiseJoin(f, ys[..n]);
      assert zs[..n] == seq(n, r requires 0 <= r < n => Pointwise(f, ys[..n][r]));
    }
  }

  /** An ungathered column-parallel layer, a pointwise activation and a row-parallel layer on the parallel
      input compute the serial two-layer composition. */
  lemma ColumnIntoRowIsSerial(w1: seq<Mat>, b1: Option<seq<Vec>>, w2: seq<Mat>, b2: Option<Vec>, outSize: nat,
                              f: real -> real, x: Vec)
    requires ColumnShards(w1, b1, |x|) && |w1| == |w2| > 0
    requires forall r :: 0 <= r < |w2| ==> |w2[r]| == outSize && Width(w2[r], |w1[r]|)
    requires b2.Some? ==> |b2.value| == outSize
    ensures var ys := ColumnOutputs(w1, b1, x, false);
      var zs := seq(|ys|, r requires 0 <= r < |ys| => Pointwise(f, ys[r]));
      Width(Flatten(w1), |x|) && (b1.Some? ==> |Flatten(b1.value)| == |Flatten(w1)|) &&
      Width(SideBySide(w2, outSize), |Flatten(w1)|) && RowShards(w2, outSize, zs) &&
      RowOutput(w2, b2, outSize, zs, false) ==
        Linear(SideBySide(w2, outSize), b2, Pointwise(f, Linear(Flatten(w1), JoinedBias(b1), x)))
  {
    var ys := ColumnOutputs(w1, b1, x, false);
    var zs := seq(|ys|, r requires 0 <= r < |ys| => Pointwise(f, ys[r]));
    ColumnParallelIsSerial(w1, b1, x, false);
    PointwiseJoin(f, ys);
    PartialsSumUp(w2, outSize, zs);
  }
}
