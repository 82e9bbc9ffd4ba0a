/** The CPU Adam optimizer: csrc/adam/cpu_adam.cpp and csrc/includes/cpu_adam.h, for single precision
    parameters, over the reals. An address inside a tensor is the tensor and an
    offset. */
module CpuAdam {
  import opened AdamRule
  import opened Arithmetic
  import opened DoubleBuffer
  import opened Wrappers

  // ---------------------------------------------------------------------------------------------
  // Tensors
  // ---------------------------------------------------------------------------------------------

  datatype Tensors = Tensors(params: array<real>, grads: array<real>, expAvg: array<real>, expAvgSq: array<real>) {
    ghost predicate Fit() {
      params.Length == grads.Length == expAvg.Length == expAvgSq.Length &&
      params != grads && params != expAvg && params != expAvgSq && grads != expAvg && grads != expAvgSq &&
        expAvg != expAvgSq
    }

    /** No tensor is the given array. */
    ghost predicate Avoids(a: array<real>) {
      params != a && grads != a && expAvg != a && expAvgSq != a
    }
  }

  ghost function Cells(x: Tensors): (cells: seq<Cell>)
    requires x.Fit()
    reads x.params, x.expAvg, x.expAvgSq
    ensures |cells| == x.params.Length
    ensures forall k :: 0 <= k < |cells| ==> cells[k] == Cell(x.params[k], x.expAvg[k], x.expAvgSq[k])
  {
    seq(x.params.Length, k requires 0 <= k < x.params.Length reads x.params, x.expAvg, x.expAvgSq =>
      Cell(x.params[k], x.expAvg[k], x.expAvgSq[k]))
  }

  /** The cells lo..hi-1 have made one Adam step, the others none. */
  ghost predicate Stepped(f: Math, r: Rule, grads: seq<real>, lo: int, hi: int, before: seq<Cell>, after: seq<Cell>) {
    |before| == |after| == |grads| &&
    forall k :: 0 <= k < |after| ==> after[k] == if lo <= k < hi then Adam(f, r, grads[k], before[k]) else before[k]
  }

  /** Steps on neighbouring ranges are a step on their union: no cell is stepped twice. */
  lemma SteppedOn(f: Math, r: Rule, grads: seq<real>, lo: int, mid: int, hi: int, a: seq<Cell>, b: seq<Cell>,
                  c: seq<Cell>)
    requires lo <= mid <= hi && Stepped(f, r, grads, lo, mid, a, b) && Stepped(f, r, grads, mid, hi, b, c)
    ensures Stepped(f, r, grads, lo, hi, a, c)
  {
    hide Adam;
  }

  lemma SteppedNone(f: Math, r: Rule, grads: seq<real>, at: int, cells: seq<Cell>)
    requires |cells| == |grads|
    ensures Stepped(f, r, grads, at, at, cells, cells)
  {
  }

  /** The parameters before a stepped range are as they were. */
  lemma KeptPrefix(f: Math, r: Rule, x: Tensors, before: seq<Cell>, from: nat, lo: nat, hi: nat, prefix: seq<real>)
    requires x.Fit() && from <= lo <= hi <= x.params.Length
    requires Stepped(f, r, x.grads[..], lo, hi, before, Cells(x))
    requires |prefix| == lo - from && forall j :: 0 <= j < |prefix| ==> prefix[j] == before[from + j].param
    ensures x.params[from..hi] == prefix + x.params[lo..hi]
  {
    hide Adam;
    forall j | 0 <= j < |prefix| ensures x.params[from + j] == prefix[j] {
      assert Cells(x)[from + j] == before[from + j];
    }
  }

  /** Between two multiples of a block there is room for a block. */
  lemma NextBlock(i: nat, offset: nat, block: nat)
    requires block > 0 && i < offset && i % block == 0 && offset % block == 0
    ensures i + block <= offset && (i + block) % block == 0
  {
    var p, q := i / block, offset / block;
    assert i == p * block && offset == q * block;
    Distribute(q, p, block);
    ProductSign(q - p, block);
    Distribute(p, 1, block);
    DivModUnique(i + block, block, p + 1, 0);
  }

  /** Copying the buffer that holds a range of the parameters is copying that range. */
  lemma OverlayShift(dev: seq<real>, buffer: seq<real>, params: seq<real>, lo: nat, hi: nat, convert: real -> real)
    requires lo <= hi <= |params| && hi - lo <= |buffer| && buffer[..hi - lo] == params[lo..hi]
    ensures Overlay(dev, buffer, lo, hi, lo, convert) == Overlay(dev, params, lo, hi, 0, convert)
  {
    forall j | 0 <= j < |dev| && lo <= j < hi ensures buffer[j - lo] == params[j] {
      assert buffer[..hi - lo][j - lo] == params[lo..hi][j - lo];
    }
  }

  lemma OverlayNone(dev: seq<real>, params: seq<real>, at: nat, convert: real -> real)
    requires at <= |params|
    ensures Overlay(dev, params, at, at, 0, convert) == dev
  {
  }

  /** Sending neighbouring ranges is sending their union. */
  lemma OverlayOn(dev: seq<real>, before: seq<real>, after: seq<real>, lo: nat, mid: nat, hi: nat,
                  convert: real -> real)
    requires lo <= mid <= hi <= |before| == |after| && before[..mid] == after[..mid]
    ensures Overlay(Overlay(dev, before, lo, mid, 0, convert), after, mid, hi, 0, convert) ==
      Overlay(dev, after, lo, hi, 0, convert)
  {
    forall j | 0 <= j < mid ensures before[j] == after[j] { assert before[..mid][j] == after[..mid][j]; }
  }

  lemma KeptBefore(f: Math, r: Rule, x: Tensors, cells: seq<Cell>, params: seq<real>, lo: nat, hi: nat)
    requires x.Fit() && lo <= hi <= x.params.Length && Stepped(f, r, x.grads[..], lo, hi, cells, Cells(x))
    requires |params| == |cells| && forall k :: 0 <= k < |params| ==> params[k] == cells[k].param
    ensures params[..lo] == x.params[..lo]
  {
    hide Adam;
    forall k | 0 <= k < lo ensures params[k] == x.params[k] { assert Cells(x)[k] == cells[k]; }
  }

  /** Two loops on neighbouring ranges, the second one over x as it is now. */
  lemma TwoParts(f: Math, r: Rule, x: Tensors, dev: seq<real>, lo: nat, mid: nat, hi: nat, cells: seq<Cell>,
                 middle: seq<Cell>, params: seq<real>, convert: real -> real)
    requires x.Fit() && lo <= mid <= hi <= x.params.Length
    requires Stepped(f, r, x.grads[..], lo, mid, cells, middle) && Stepped(f, r, x.grads[..], mid, hi, middle, Cells(x))
    requires |params| == |middle| && forall k :: 0 <= k < |params| ==> params[k] == middle[k].param
    ensures Stepped(f, r, x.grads[..], lo, hi, cells, Cells(x))
    ensures Overlay(Overlay(dev, params, lo, mid, 0, convert), x.params[..], mid, hi, 0, convert) ==
            Overlay(dev, x.params[..], lo, hi, 0, convert)
  {
    hide Adam;
    SteppedOn(f, r, x.grads[..], lo, mid, hi, cells, middle, Cells(x));
    KeptBefore(f, r, x, middle, params, mid, hi);
    OverlayOn(dev, params, x.params[..], lo, mid, hi, convert);
  }

  lemma RoundedDivides(size: nat, block: nat)
    requires block > 0
    ensures (size - size % block) % block == 0
  {
    var q := size / block;
    assert size - size % block == q * block + 0;
    DivModUnique(size - size % block, block, q, 0);
  }

  /** A tile is a whole number of blocks, and so is the end of a tile. */
  lemma TileBlocks(t: nat, size: nat, block: nat)
    requires block in {8, 16, 32, 64, 128} && t % block == 0 && size % block == 0
    ensures (t + TILE) % block == 0
  {
  }

  /** What a step precomputes from the rule. */
  datatype Constants = Constants(beta1Minus1: real, beta2Minus1: real, stepSize: real, wDecay: real)

  ghost predicate AreConstants(f: Math, r: Rule, c: Constants) {
    c == Constants(1.0 - r.beta1, 1.0 - r.beta2, StepSize(f, r), -1.0 * r.alpha * r.weightDecay)
  }

  /** The values the instructions of an update pass through are those of the rule. */
  lemma UpdateIsAdam(f: Math, r: Rule, c: Constants, cell: Cell, grad: real, g: real, m: real, v: real, root: real,
                     d: real, q: real, p: real)
    requires AreConstants(f, r, c)
    requires g == if r.weightDecay > 0.0 && !r.adamw then cell.param * r.weightDecay + grad else grad
    requires m == g * c.beta1Minus1 + cell.momentum * r.beta1
    requires v == (g * g) * c.beta2Minus1 + cell.variance * r.beta2
    requires root == f.Sqrt(v) && d == root * r.bc2 + r.eps && q == f.Div(m, d)
    requires p == if r.weightDecay > 0.0 && r.adamw then c.wDecay * cell.param + cell.param else cell.param
    ensures Cell(q * c.stepSize + p, m, v) == Adam(f, r, grad, cell)
  {
    hide StepSize, Adam;
    assert g == Gradient(r, grad, cell.param);
    assert m == Average(r.beta1, cell.momentum, g);
    assert v == Average(r.beta2, cell.variance, Times(g, g));
    assert p == Decayed(r, cell.param);
    assert d == Times(root, r.bc2) + r.eps;
    assert q * c.stepSize + p == p + Times(q, StepSize(f, r));
    AssembleAdam(f, r, cell, grad, g, m, v, root, d, q, p);
  }

  lemma AssembleAdam(f: Math, r: Rule, cell: Cell, grad: real, g: real, m: real, v: real, root: real, d: real, q: real,
                     p: real)
    requires g == Gradient(r, grad, cell.param) && p == Decayed(r, cell.param)
    requires m == Average(r.beta1, cell.momentum, g) && v == Average(r.beta2, cell.variance, Times(g, g))
    requires root == f.Sqrt(v) && d == Times(root, r.bc2) + r.eps && q == f.Div(m, d)
    ensures Cell(p + Times(q, StepSize(f, r)), m, v) == Adam(f, r, grad, cell)
  {
    hide Gradient, Decayed, Average, Times, StepSize;
  }

  // ---------------------------------------------------------------------------------------------
  // The loops of a step
  // ---------------------------------------------------------------------------------------------

  /** `ROUND_DOWN(size, width * span)` for a power of two; nothing in a build without vector instructions. */
  function Rounded(width: Option<nat>, size: nat, span: nat): (r: nat)
    requires span > 0 && (width.Some? ==> width.value > 0)
    ensures r <= size
  {
    if width.None? then 0 else size - size % (width.value * span)
  }

  ghost function Lead(n: nat): seq<nat> {
    if n == 0 then [] else [n]
  }

  /** The lengths of the loops that are not empty: one vector loop for each span, then the scalar loop. */
  ghost function LoopLengths(width: Option<nat>, size: nat, spans: seq<nat>): seq<nat>
    requires (width.Some? ==> width.value > 0) && forall k :: 0 <= k < |spans| ==> spans[k] > 0
  {
    if spans == [] then Lead(size)
    else
      var r := Rounded(width, size, spans[0]);
      Lead(r) + LoopLengths(width, size - r, spans[1..])
  }

  /** Loops that never write a buffer whose copy may be pending: at most one, or two of one tile each. */
  ghost predicate Safe(loops: seq<nat>) {
    |loops| <= 1 || (|loops| == 2 && loops[0] <= TILE && loops[1] <= TILE)
  }

  /** Streams that are idle, or have a free buffer, have room for the loops. */
  ghost predicate RoomFor(idle: bool, free: bool, loops: seq<nat>) {
    loops == [] || (idle && Safe(loops)) || (free && |loops| == 1 && loops[0] <= TILE)
  }

  lemma RoomNow(idle: bool, free: bool, n: nat, rest: seq<nat>)
    requires n > 0 && RoomFor(idle, free, Lead(n) + rest)
    ensures idle || (free && n <= TILE)
  {
  }

  /** A loop of one tile on idle streams leaves one buffer free, which is room for what may follow. */
  lemma RoomAfter(idle: bool, free: bool, n: nat, rest: seq<nat>, idleAfter: bool, freeAfter: bool)
    requires n > 0 && RoomFor(idle, free, Lead(n) + rest) && (idle && n <= TILE ==> freeAfter)
    ensures RoomFor(idleAfter, freeAfter, rest)
  {
    assert (Lead(n) + rest)[0] == n;
    assert rest != [] ==> (Lead(n) + rest)[1] == rest[0];
  }

  lemma FirstLoop(width: Option<nat>, size: nat, spans: seq<nat>)
    requires (width.Some? ==> width.value > 0) && spans != [] && forall k :: 0 <= k < |spans| ==> spans[k] > 0
    ensures var r := Rounded(width, size, spans[0]);
      LoopLengths(width, size, spans) == Lead(r) + LoopLengths(width, size - r, spans[1..])
  {
  }

  lemma ScalarLoop(width: Option<nat>, size: nat)
    requires width.Some? ==> width.value > 0
    ensures LoopLengths(width, size, []) == Lead(size) == Lead(size) + []
  {
  }

  // ---------------------------------------------------------------------------------------------
  // The optimizer
  // ---------------------------------------------------------------------------------------------

  class AdamOptimizer {
    const math: Math
    const adamwMode: bool
    /** Lanes of a vector register, or none in a build without vector instructions. */
    const width: Option<nat>
    const streams: Streams

    var alpha: real
    var betta1: real
    var betta2: real
    var eps: real
    var weightDecay: real
    var betta1T: real
    var betta2T: real
    var step: nat
    var biasCorrection1: real
    var biasCorrection2: real

    ghost predicate Valid()
      reads this
    {
      betta1T == Pow(betta1, step) && betta2T == Pow(betta2, step) && (width.Some? ==> Vectors())
    }

    /** A build with vector instructions, AVX2 or AVX512. */
    ghost predicate Vectors() {
      width == Some(8) || width == Some(16)
    }

    ghost function Rule(): Rule
      reads this
    {
      AdamRule.Rule(alpha, betta1, betta2, eps, weightDecay, adamwMode, biasCorrection1, biasCorrection2)
    }

    constructor (math: Math, convert: real -> real, width: Option<nat>, alpha: real, betta1: real, betta2: real,
                 eps: real, weightDecay: real, adamwMode: bool)
      requires width.Some? ==> width.value == 8 || width.value == 16
      ensures Valid() && step == 0 && fresh(streams) && fresh(streams.first) && fresh(streams.second)
      ensures streams.Idle() && streams.Pinned() && streams.index == 0
      ensures this.math == math && this.adamwMode == adamwMode && this.width == width && streams.convert == convert
    {
      this.math, this.adamwMode, this.width := math, adamwMode, width;
      this.alpha, this.betta1, this.betta2, this.eps, this.weightDecay := alpha, betta1, betta2, eps, weightDecay;
      betta1T, betta2T, step := 1.0, 1.0, 0;
      streams := new Streams(convert);
    }

    /** `IncrementStep`: whatever the optimizer did before, it ends at the given step with powers that fit. */
    method IncrementStep(step: nat, beta1: real, beta2: real)
      requires Valid()
      modifies `step, `betta1, `betta2, `betta1T, `betta2T
      ensures Valid() && this.step == step && betta1 == beta1 && betta2 == beta2
    {
      if beta1 != betta1 || beta2 != betta2 {
        this.step := step;
        betta1 := beta1;
        betta2 := beta2;
        betta1T := Pow(betta1, step);
        betta2T := Pow(betta2, step);
      } else {
        this.step := this.step + 1;
        if this.step != step {
          betta1T := Pow(betta1, step);
          betta2T := Pow(betta2, step);
          this.step := step;
        } else {
          betta1T := betta1T * betta1;
          betta2T := betta2T * betta2;
        }
      }
    }

    /** `update_state`: the rule is now the one of the current step. */
    method UpdateState(lr: real, epsilon: real, weightDecay: real, biasCorrection: bool)
      requires Valid()
      modifies `alpha, `eps, `weightDecay, `biasCorrection1, `biasCorrection2
      ensures Valid() &&
        Rule() == RuleOfStep(math, lr, betta1, betta2, epsilon, weightDecay, adamwMode, biasCorrection, step)
    {
      alpha := lr;
      eps := epsilon;
      this.weightDecay := weightDecay;
      biasCorrection1 := 1.0;
      biasCorrection2 := 1.0;
      if biasCorrection {
        biasCorrection1 := 1.0 - betta1T;
        biasCorrection2 := math.Div(1.0, math.Sqrt(1.0 - betta2T));
      }
    }

    method Precompute() returns (c: Constants)
      ensures AreConstants(math, Rule(), c)
    {
      c := Constants(1.0 - betta1, 1.0 - betta2, math.Div(-1.0 * alpha, biasCorrection1), -1.0 * alpha * weightDecay);
    }

    // -------------------------------------------------------------------------------------------
    // The scalar update
    // -------------------------------------------------------------------------------------------

    /** The body of the scalar loop. */
    method ScalarCell(x: Tensors, k: nat, c: Constants) returns (param: real)
      requires x.Fit() && k < x.params.Length && AreConstants(math, Rule(), c)
      modifies x.params, x.expAvg, x.expAvgSq
      ensures Stepped(math, Rule(), x.grads[..], k, k + 1, old(Cells(x)), Cells(x)) && param == x.params[k]
    {
      hide AreConstants, Adam;
      ghost var cell := Cells(x)[k];
      var grad := x.grads[k];
      param := x.params[k];
      var momentum := x.expAvg[k];
      var variance := x.expAvgSq[k];
      if weightDecay > 0.0 && !adamwMode { grad := param * weightDecay + grad; }
      ghost var g := grad;
      momentum := momentum * betta1;
      momentum := grad * c.beta1Minus1 + momentum;
      variance := variance * betta2;
      grad := grad * grad;
      variance := grad * c.beta2Minus1 + variance;
      grad := math.Sqrt(variance);
      ghost var root := grad;
      grad := grad * biasCorrection2 + eps;
      ghost var d := grad;
      grad := math.Div(momentum, grad);
      if weightDecay > 0.0 && adamwMode { param := param + c.wDecay * param; }
      UpdateIsAdam(math, Rule(), c, cell, x.grads[k], g, momentum, variance, root, d, grad, param);
      param := grad * c.stepSize + param;
      x.params[k] := param;
      x.expAvg[k] := momentum;
      x.expAvgSq[k] := variance;
    }

    // -------------------------------------------------------------------------------------------
    // The vector update
    // -------------------------------------------------------------------------------------------

    /** `simd_load`: span registers, one after the other. */
    method SimdLoad(src: array<real>, at: nat, span: nat) returns (lanes: seq<real>)
      requires Vectors() && at + width.value * span <= src.Length
      ensures lanes == src[at..at + width.value * span]
    {
      lanes := [];
      for i := 0 to span
        invariant width.value * i <= width.value * span
        invariant lanes == src[at..at + width.value * i]
      {
        IndexBound(i, span, width.value, 0);
        MulCommute(i, width.value);
        MulCommute(span, width.value);
        MulCommute(i + 1, width.value);
        lanes := lanes + src[at + width.value * i..at + width.value * i + width.value];
        assert width.value * (i + 1) == width.value * i + width.value;
      }
    }

    /** `simd_store`: span registers, one after the other. */
    method SimdStore(dst: array<real>, at: nat, lanes: seq<real>, span: nat)
      requires Vectors() && |lanes| == width.value * span && at + |lanes| <= dst.Length
      modifies dst
      ensures forall k ::
        0 <= k < dst.Length ==> dst[k] == if at <= k < at + |lanes| then lanes[k - at] else old(dst[k])
    {
      for i := 0 to span
        invariant width.value * i <= width.value * span
        invariant forall k :: 0 <= k < dst.Length ==>
          dst[k] == if at <= k < at + width.value * i then lanes[k - at] else old(dst[k])
      {
        IndexBound(i, span, width.value, 0);
        MulCommute(i, width.value);
        MulCommute(span, width.value);
        MulCommute(i + 1, width.value);
        var first := width.value * i;
        assert width.value * (i + 1) == first + width.value;
        for l := 0 to width.value
          invariant forall k :: 0 <= k < dst.Length ==>
            dst[k] == if at <= k < at + first + l then lanes[k - at] else old(dst[k])
        {
          dst[at + first + l] := lanes[first + l];
        }
      }
    }

    /** The vector instructions of one block; a group of registers is the list of its lanes. */
    method SimdUpdate(grads: seq<real>, params: seq<real>, averages: seq<real>, squares: seq<real>, c: Constants)
      returns (param: seq<real>, momentum: seq<real>, variance: seq<real>)
      requires |grads| == |params| == |averages| == |squares| && AreConstants(math, Rule(), c)
      ensures |param| == |momentum| == |variance| == |grads|
      ensures forall l :: 0 <= l < |grads| ==>
        Cell(param[l], momentum[l], variance[l]) ==
          Adam(math, Rule(), grads[l], Cell(params[l], averages[l], squares[l]))
    {
      hide AreConstants, Adam, Times, MulAdd;
      var grad := grads;
      param, momentum, variance := params, averages, squares;
      if weightDecay > 0.0 && !adamwMode { grad := FmaBy(param, weightDecay, grad); }
      ghost var g := grad;
      momentum := MulBy(momentum, betta1);
      momentum := FmaBy(grad, c.beta1Minus1, momentum);
      variance := MulBy(variance, betta2);
      grad := Mul(grad, grad);
      variance := FmaBy(grad, c.beta2Minus1, variance);
      grad := Sqrt(math, variance);
      ghost var root := grad;
      grad := FmaTo(grad, biasCorrection2, eps);
      ghost var d := grad;
      grad := Div(math, momentum, grad);
      if weightDecay > 0.0 && adamwMode { param := FmaBy(param, c.wDecay, param); }
      ghost var p := param;
      param := FmaBy(grad, c.stepSize, param);
      forall l | 0 <= l < |grads|
        ensures Cell(param[l], momentum[l], variance[l]) ==
          Adam(math, Rule(), grads[l], Cell(params[l], averages[l], squares[l]))
      {
        LaneIsAdam(math, Rule(), c, Cell(params[l], averages[l], squares[l]), grads[l], g[l], momentum[l], variance[l],
                     root[l], d[l], grad[l], p[l]);
      }
    }

    /** One block of the vector loop: loads, updates, and stores. */
    method SimdBlock(x: Tensors, at: nat, span: nat, c: Constants) returns (param: seq<real>)
      requires x.Fit() && Vectors() && at + width.value * span <= x.params.Length && AreConstants(math, Rule(), c)
      modifies x.params, x.expAvg, x.expAvgSq
      ensures Stepped(math, Rule(), x.grads[..], at, at + width.value * span, old(Cells(x)), Cells(x))
      ensures param == x.params[at..at + width.value * span]
    {
      hide AreConstants, Adam;
      ghost var before, n := Cells(x), width.value * span;
      var grad := SimdLoad(x.grads, at, span);
      var momentum := SimdLoad(x.expAvg, at, span);
      var variance := SimdLoad(x.expAvgSq, at, span);
      param := SimdLoad(x.params, at, span);
      forall l | 0 <= l < n
        ensures Cell(param[l], momentum[l], variance[l]) == before[at + l] && grad[l] == x.grads[at + l] {}
      param, momentum, variance := SimdUpdate(grad, param, momentum, variance, c);
      SimdStore(x.params, at, param, span);
      SimdStore(x.expAvg, at, momentum, span);
      SimdStore(x.expAvgSq, at, variance, span);
      forall k | at <= k < at + n ensures Cells(x)[k] == Adam(math, Rule(), x.grads[k], before[k]) {
        assert before[at + (k - at)] == before[k];
      }
    }

    // -------------------------------------------------------------------------------------------
    // Tiles
    // -------------------------------------------------------------------------------------------

    /** The tensors, the device array and the pinned buffers are different arrays. */
    ghost predicate Separate(x: Tensors, dev: array<real>)
      reads streams
    {
      x.Fit() && x.Avoids(streams.first) && x.Avoids(streams.second) && x.Avoids(dev) && streams.Valid(dev)
    }

    /** One turn of the scalar loop: the parameter at k also goes to the pinned buffer. */
    method ScalarTurn(x: Tensors, k: nat, slot: nat, dev: array<real>, copy: bool, c: Constants)
      requires Separate(x, dev) && AreConstants(math, Rule(), c)
      requires k < x.params.Length && slot < TILE && (copy ==> streams.Current() == None)
      modifies x.params, x.expAvg, x.expAvgSq, streams`a, streams`b, streams.first, streams.second, dev
      ensures Separate(x, dev) && Stepped(math, Rule(), x.grads[..], k, k + 1, old(Cells(x)), Cells(x))
      ensures streams.Delivered(dev) == old(streams.Delivered(dev))
      ensures SameTarget(old(streams.a), streams.a) && SameTarget(old(streams.b), streams.b)
      ensures copy ==> streams.Current() == None &&
                       streams.Buffer()[..slot + 1] == old(streams.Buffer()[..slot]) + x.params[k..k + 1]
      ensures !copy ==> streams.a == old(streams.a) && streams.b == old(streams.b)
    {
      hide AreConstants, Adam, Stepped, Future;
      var param := ScalarCell(x, k, c);
      if copy { streams.Put(dev, slot, [param]); }
    }

    /** The scalar loop over one tile. */
    method ScalarTile(x: Tensors, at: nat, t: nat, offset: nat, dev: array<real>, copy: bool, c: Constants)
      requires Separate(x, dev) && AreConstants(math, Rule(), c)
      requires t <= offset <= t + TILE && at + offset <= x.params.Length && (copy ==> streams.Current() == None)
      modifies x.params, x.expAvg, x.expAvgSq, streams`a, streams`b, streams.first, streams.second, dev
      ensures Separate(x, dev)
      ensures Stepped(math, Rule(), x.grads[..], at + t, at + offset, old(Cells(x)), Cells(x))
      ensures streams.Delivered(dev) == old(streams.Delivered(dev))
      ensures SameTarget(old(streams.a), streams.a) && SameTarget(old(streams.b), streams.b)
      ensures copy ==> streams.Current() == None && streams.Buffer()[..offset - t] == x.params[at + t..at + offset]
      ensures !copy ==> streams.a == old(streams.a) && streams.b == old(streams.b)
    {
      hide AreConstants, Adam, Stepped, Future;
      SteppedNone(math, Rule(), x.grads[..], at + t, Cells(x));
      for k := t to offset
        invariant Separate(x, dev)
        invariant Stepped(math, Rule(), x.grads[..], at + t, at + k, old(Cells(x)), Cells(x))
        invariant streams.Delivered(dev) == old(streams.Delivered(dev))
        invariant SameTarget(old(streams.a), streams.a) && SameTarget(old(streams.b), streams.b)
        invariant copy ==> streams.Current() == None && streams.Buffer()[..k - t] == x.params[at + t..at + k]
        invariant !copy ==> streams.a == old(streams.a) && streams.b == old(streams.b)
      {
        ghost var cells, done := Cells(x), x.params[at + t..at + k];
        ScalarTurn(x, at + k, k - t, dev, copy, c);
        SteppedOn(math, Rule(), x.grads[..], at + t, at + k, at + k + 1, old(Cells(x)), cells, Cells(x));
        KeptPrefix(math, Rule(), x, cells, at + t, at + k, at + k + 1, done);
      }
    }

    /** One turn of the vector loop. */
    method VectorTurn(x: Tensors, i: nat, slot: nat, span: nat, dev: array<real>, copy: bool, c: Constants)
      requires Separate(x, dev) && AreConstants(math, Rule(), c) && Vectors()
      requires i + width.value * span <= x.params.Length && slot + width.value * span <= TILE &&
        (copy ==> streams.Current() == None)
      modifies x.params, x.expAvg, x.expAvgSq, streams`a, streams`b, streams.first, streams.second, dev
      ensures Separate(x, dev) && Stepped(math, Rule(), x.grads[..], i, i + width.value * span, old(Cells(x)), Cells(x))
      ensures streams.Delivered(dev) == old(streams.Delivered(dev))
      ensures SameTarget(old(streams.a), streams.a) && SameTarget(old(streams.b), streams.b)
      ensures copy ==> streams.Current() == None &&
                       streams.Buffer()[..slot + width.value * span] ==
                       old(streams.Buffer()[..slot]) + x.params[i..i + width.value * span]
      ensures !copy ==> streams.a == old(streams.a) && streams.b == old(streams.b)
    {
      hide AreConstants, Adam, Stepped, Future;
      var param := SimdBlock(x, i, span, c);
      if copy { streams.Put(dev, slot, param); }
    }

    /** The vector loop over one tile. */
    method VectorTile(x: Tensors, at: nat, t: nat, offset: nat, span: nat, dev: array<real>, copy: bool, c: Constants)
      requires Separate(x, dev) && AreConstants(math, Rule(), c) && Vectors() && span > 0
      requires t <= offset <= t + TILE && at + offset <= x.params.Length && (copy ==> streams.Current() == None)
      requires t % (width.value * span) == 0 && offset % (width.value * span) == 0
      modifies x.params, x.expAvg, x.expAvgSq, streams`a, streams`b, streams.first, streams.second, dev
      ensures Separate(x, dev)
      ensures Stepped(math, Rule(), x.grads[..], at + t, at + offset, old(Cells(x)), Cells(x))
      ensures streams.Delivered(dev) == old(streams.Delivered(dev))
      ensures SameTarget(old(streams.a), streams.a) && SameTarget(old(streams.b), streams.b)
      ensures copy ==> streams.Current() == None && streams.Buffer()[..offset - t] == x.params[at + t..at + offset]
      ensures !copy ==> streams.a == old(streams.a) && streams.b == old(streams.b)
    {
      hide AreConstants, Adam, Stepped, Future;
      SteppedNone(math, Rule(), x.grads[..], at + t, Cells(x));
      var block: nat, i := width.value * span, t;
      while i < offset
        invariant Separate(x, dev) && t <= i <= offset && i % block == 0
        invariant Stepped(math, Rule(), x.grads[..], at + t, at + i, old(Cells(x)), Cells(x))
        invariant streams.Delivered(dev) == old(streams.Delivered(dev))
        invariant SameTarget(old(streams.a), streams.a) && SameTarget(old(streams.b), streams.b)
        invariant copy ==> streams.Current() == None && streams.Buffer()[..i - t] == x.params[at + t..at + i]
        invariant !copy ==> streams.a == old(streams.a) && streams.b == old(streams.b)
      {
        NextBlock(i, offset, block);
        ghost var cells, done := Cells(x), x.params[at + t..at + i];
        VectorTurn(x, at + i, i - t, span, dev, copy, c);
        SteppedOn(math, Rule(), x.grads[..], at + t, at + i, at + i + block, old(Cells(x)), cells, Cells(x));
        KeptPrefix(math, Rule(), x, cells, at + t, at + i, at + i + block, done);
        i := i + block;
      }
    }

    /** The end of a tile: its parameters, which are in the current buffer, are sent, and the buffers change. */
    method CopyOut(x: Tensors, lo: nat, hi: nat, dev: array<real>)
      requires Separate(x, dev) && streams.Current() == None
      requires lo <= hi <= lo + TILE && hi <= x.params.Length && hi <= dev.Length
      requires streams.Buffer()[..hi - lo] == x.params[lo..hi] && Behind(streams.a, lo) && Behind(streams.b, lo)
      modifies streams
      ensures Separate(x, dev) && Behind(streams.a, hi) && Behind(streams.b, hi)
      ensures streams.Delivered(dev) == Overlay(old(streams.Delivered(dev)), x.params[..], lo, hi, 0, streams.convert)
      ensures old(streams.a) == None && old(streams.b) == None ==> streams.Current() == None
    {
      hide Future;
      ghost var future := streams.Delivered(dev);
      streams.Launch(dev, lo, hi - lo);
      OverlayShift(future, streams.Buffer()[..], x.params[..], lo, hi, streams.convert);
      streams.Toggle();
    }

    /** One tile: the loop over it, with spans of vector registers or one by one, then the copy of its
        parameters and the change of buffers. */
    method Tile(x: Tensors, at: nat, t: nat, offset: nat, span: Option<nat>, dev: array<real>, copy: bool, c: Constants)
      requires Separate(x, dev) && AreConstants(math, Rule(), c)
      requires t <= offset <= t + TILE && at + offset <= x.params.Length
      requires span.Some? ==>
        Vectors() && span.value > 0 && t % (width.value * span.value) == 0 && offset % (width.value * span.value) == 0
      requires copy ==> streams.Current() == None && at + offset <= dev.Length
      requires copy ==> Behind(streams.a, at + t) && Behind(streams.b, at + t)
      modifies x.params, x.expAvg, x.expAvgSq, streams, streams.first, streams.second, dev
      ensures Separate(x, dev)
      ensures Stepped(math, Rule(), x.grads[..], at + t, at + offset, old(Cells(x)), Cells(x))
      ensures streams.Delivered(dev) ==
        if copy then Overlay(old(streams.Delivered(dev)), x.params[..], at + t, at + offset, 0, streams.convert)
        else old(streams.Delivered(dev))
      ensures copy ==> Behind(streams.a, at + offset) && Behind(streams.b, at + offset)
      ensures copy && old(streams.a) == None && old(streams.b) == None ==> streams.Current() == None
      ensures !copy ==> streams.a == old(streams.a) && streams.b == old(streams.b)
    {
      hide AreConstants, Adam, Stepped, Future;
      if span.Some? {
        VectorTile(x, at, t, offset, span.value, dev, copy, c);
      } else {
        ScalarTile(x, at, t, offset, dev, copy, c);
      }
      if copy { CopyOut(x, at + t, at + offset, dev); }
    }

    /** One turn of the tile loop: from two tiles on it first waits for the copy from the buffer it will write. */
    method TileTurn(x: Tensors, at: nat, from: nat, t: nat, offset: nat, span: Option<nat>, dev: array<real>,
                    copy: bool, c: Constants, ghost cells: seq<Cell>, ghost future: seq<real>)
      requires Separate(x, dev) && AreConstants(math, Rule(), c)
      requires from <= t <= offset <= t + TILE && at + offset <= x.params.Length
      requires span.Some? ==>
        Vectors() && span.value > 0 && t % (width.value * span.value) == 0 && offset % (width.value * span.value) == 0
      requires copy ==> at + offset <= dev.Length && Behind(streams.a, at + t) && Behind(streams.b, at + t)
      requires copy && t / TILE < 2 ==> streams.Current() == None
      requires Stepped(math, Rule(), x.grads[..], at + from, at + t, cells, Cells(x))
      requires streams.Delivered(dev) ==
        if copy then Overlay(future, x.params[..], at + from, at + t, 0, streams.convert) else future
      modifies x.params, x.expAvg, x.expAvgSq, streams, streams.first, streams.second, dev
      ensures Separate(x, dev)
      ensures copy ==> Behind(streams.a, at + offset) && Behind(streams.b, at + offset)
      ensures copy && old(streams.a) == None && old(streams.b) == None ==> streams.Current() == None
      ensures !copy ==> streams.a == old(streams.a) && streams.b == old(streams.b)
      ensures Stepped(math, Rule(), x.grads[..], at + from, at + offset, cells, Cells(x))
      ensures streams.Delivered(dev) ==
        if copy then Overlay(future, x.params[..], at + from, at + offset, 0, streams.convert) else future
    {
      hide AreConstants, Adam, Stepped, Future;
      ghost var middle, params := Cells(x), x.params[..];
      if copy && t / TILE >= 2 { streams.Synchronize(dev, streams.index); }
      Tile(x, at, t, offset, span, dev, copy, c);
      TwoParts(math, Rule(), x, future, at + from, at + t, at + offset, cells, middle, params, streams.convert);
    }

    /** The device array may receive the loops of the given lengths, the first of them from this position on: no copy
        is pending and the loops are safe, or one buffer is free and one loop of one tile is left. */
    ghost predicate Ready(position: int, loops: seq<nat>)
      reads streams
    {
      Behind(streams.a, position) && Behind(streams.b, position) &&
        RoomFor(streams.Idle(), streams.Current() == None, loops)
    }

    /** The tile loop of `Step_1` and `Step_AVX`. A buffer is written again only after the copy launched from it has
        been waited for; afterwards the streams are ready for the loops that may follow. */
    method TileLoop(x: Tensors, at: nat, from: nat, size: nat, span: Option<nat>, dev: array<real>, copy: bool,
                    ghost rest: seq<nat>)
      requires Separate(x, dev) && from <= size && at + size <= x.params.Length
      requires span.Some? ==>
        Vectors() && span.value in {1, 4, 8} && from == 0 && size % (width.value * span.value) == 0
      requires copy ==> at + size <= dev.Length && Ready(at + from, Lead(size - from) + rest)
      modifies x.params, x.expAvg, x.expAvgSq, streams, streams.first, streams.second, dev
      ensures Separate(x, dev)
      ensures Stepped(math, Rule(), x.grads[..], at + from, at + size, old(Cells(x)), Cells(x))
      ensures streams.Delivered(dev) ==
        if copy then Overlay(old(streams.Delivered(dev)), x.params[..], at + from, at + size, 0, streams.convert)
        else old(streams.Delivered(dev))
      ensures copy ==> Ready(at + size, rest)
      ensures !copy ==> streams.a == old(streams.a) && streams.b == old(streams.b)
    {
      hide AreConstants, Adam, Stepped, Future, RoomFor;
      var c := Precompute();
      ghost var free := streams.Current() == None;
      ghost var cells, future, idle := Cells(x), streams.Delivered(dev), streams.Idle();
      SteppedNone(math, Rule(), x.grads[..], at + from, cells);
      OverlayNone(future, x.params[..], at + from, streams.convert);
      if copy && from < size { RoomNow(idle, free, size - from, rest); }
      var t := from;
      ghost var done := from;
      while t < size
        invariant from <= t && done == (if t <= size then t else size)
        invariant span.Some? ==> t % (width.value * span.value) == 0
        invariant Separate(x, dev)
        invariant Stepped(math, Rule(), x.grads[..], at + from, at + done, cells, Cells(x))
        invariant streams.Delivered(dev) ==
          if copy then Overlay(future, x.params[..], at + from, at + done, 0, streams.convert) else future
        invariant copy ==> Behind(streams.a, at + done) && Behind(streams.b, at + done)
        invariant t == from || (from < size && from + TILE <= t < size + TILE)
        invariant copy && from < size && (t == from || (idle && t < from + 2 * TILE)) ==> streams.Current() == None
        invariant !copy || t == from ==> streams.a == old(streams.a) && streams.b == old(streams.b)
        invariant t == from ==> streams.index == old(streams.index)
      {
        var copySize := TILE;
        if t + TILE > size { copySize := size - t; }
        var offset := copySize + t;
        if span.Some? { TileBlocks(t, size, width.value * span.value); }
        TileTurn(x, at, from, t, offset, span, dev, copy, c, cells, future);
        t := t + TILE;
        done := offset;
      }
      assert Lead(0) + rest == rest;
      if copy && from < size { RoomAfter(idle, free, size - from, rest, streams.Idle(), streams.Current() == None); }
    }

    // -------------------------------------------------------------------------------------------
    // The cascade
    // -------------------------------------------------------------------------------------------

    /** `Step_AVX<span>` where there are vector instructions. */
    method VectorPart(x: Tensors, at: nat, size: nat, span: nat, dev: array<real>, copy: bool, ghost rest: seq<nat>)
      returns (rounded: nat)
      requires Valid() && Separate(x, dev) && span in {1, 4, 8} && at + size <= x.params.Length
      requires copy ==> at + size <= dev.Length && Ready(at, Lead(Rounded(width, size, span)) + rest)
      modifies x.params, x.expAvg, x.expAvgSq, streams, streams.first, streams.second, dev
      ensures Valid() && Separate(x, dev) && rounded == Rounded(width, size, span)
      ensures Stepped(math, Rule(), x.grads[..], at, at + rounded, old(Cells(x)), Cells(x))
      ensures streams.Delivered(dev) ==
        if copy then Overlay(old(streams.Delivered(dev)), x.params[..], at, at + rounded, 0, streams.convert)
        else old(streams.Delivered(dev))
      ensures copy ==> Ready(at + rounded, rest)
      ensures !copy ==> streams.a == old(streams.a) && streams.b == old(streams.b)
    {
      hide Adam, Stepped, Future, Ready, RoomFor;
      rounded := 0;
      if width.Some? {
        rounded := Rounded(width, size, span);
        RoundedDivides(size, width.value * span);
        TileLoop(x, at, 0, rounded, Some(span), dev, copy, rest);
      } else {
        assert Lead(0) + rest == rest;
        SteppedNone(math, Rule(), x.grads[..], at, Cells(x));
        OverlayNone(streams.Delivered(dev), x.params[..], at, streams.convert);
      }
    }

    /** `Step_1`: single registers, then the scalar loop. */
    method Step1(x: Tensors, at: nat, size: nat, dev: array<real>, copy: bool)
      requires Valid() && Separate(x, dev) && at + size <= x.params.Length
      requires copy ==> at + size <= dev.Length && Ready(at, LoopLengths(width, size, [1]))
      modifies x.params, x.expAvg, x.expAvgSq, streams, streams.first, streams.second, dev
      ensures Valid() && Separate(x, dev)
      ensures Stepped(math, Rule(), x.grads[..], at, at + size, old(Cells(x)), Cells(x))
      ensures streams.Delivered(dev) ==
        if copy then Overlay(old(streams.Delivered(dev)), x.params[..], at, at + size, 0, streams.convert)
        else old(streams.Delivered(dev))
      ensures !copy ==> streams.a == old(streams.a) && streams.b == old(streams.b)
    {
      hide Adam, Stepped, Future, Ready, LoopLengths, Rounded;
      ghost var cells, future := Cells(x), streams.Delivered(dev);
      ghost var rest := LoopLengths(width, size - Rounded(width, size, 1), []);
      FirstLoop(width, size, [1]);
      assert [1][1..] == [];
      var rounded := VectorPart(x, at, size, 1, dev, copy, rest);
      ghost var middle, params := Cells(x), x.params[..];
      if size > rounded {
        ScalarLoop(width, size - rounded);
        TileLoop(x, at, rounded, size, None, dev, copy, []);
        TwoParts(math, Rule(), x, future, at, at + rounded, at + size, cells, middle, params, streams.convert);
      }
    }

    /** `Step_4`: spans of four registers, then `Step_1` on what is left. */
    method Step4(x: Tensors, at: nat, size: nat, dev: array<real>, copy: bool)
      requires Valid() && Separate(x, dev) && at + size <= x.params.Length
      requires copy ==> at + size <= dev.Length && Ready(at, LoopLengths(width, size, [4, 1]))
      modifies x.params, x.expAvg, x.expAvgSq, streams, streams.first, streams.second, dev
      ensures Valid() && Separate(x, dev)
      ensures Stepped(math, Rule(), x.grads[..], at, at + size, old(Cells(x)), Cells(x))
      ensures streams.Delivered(dev) ==
        if copy then Overlay(old(streams.Delivered(dev)), x.params[..], at, at + size, 0, streams.convert)
        else old(streams.Delivered(dev))
      ensures !copy ==> streams.a == old(streams.a) && streams.b == old(streams.b)
    {
      hide Adam, Stepped, Future, Ready, LoopLengths, Rounded;
      ghost var cells, future := Cells(x), streams.Delivered(dev);
      ghost var rest := LoopLengths(width, size - Rounded(width, size, 4), [1]);
      FirstLoop(width, size, [4, 1]);
      assert [4, 1][1..] == [1];
      var rounded := VectorPart(x, at, size, 4, dev, copy, rest);
      ghost var middle, params := Cells(x), x.params[..];
      if size > rounded {
        Step1(x, at + rounded, size - rounded, dev, copy);
        TwoParts(math, Rule(), x, future, at, at + rounded, at + size, cells, middle, params, streams.convert);
      }
    }

    /** `Step_8`: spans of eight registers, then `Step_4` on what is left. */
    method Step8(x: Tensors, at: nat, size: nat, dev: array<real>, copy: bool)
      requires Valid() && Separate(x, dev) && at + size <= x.params.Length
      requires copy ==> at + size <= dev.Length && Ready(at, LoopLengths(width, size, [8, 4, 1]))
      modifies x.params, x.expAvg, x.expAvgSq, streams, streams.first, streams.second, dev
      ensures Valid() && Separate(x, dev)
      ensures Stepped(math, Rule(), x.grads[..], at, at + size, old(Cells(x)), Cells(x))
      ensures streams.Delivered(dev) ==
        if copy then Overlay(old(streams.Delivered(dev)), x.params[..], at, at + size, 0, streams.convert)
        else old(streams.Delivered(dev))
      ensures !copy ==> streams.a == old(streams.a) && streams.b == old(streams.b)
    {
      hide Adam, Stepped, Future, Ready, LoopLengths, Rounded;
      ghost var cells, future := Cells(x), streams.Delivered(dev);
      ghost var rest := LoopLengths(width, size - Rounded(width, size, 8), [4, 1]);
      FirstLoop(width, size, [8, 4, 1]);
      assert [8, 4, 1][1..] == [4, 1];
      var rounded := VectorPart(x, at, size, 8, dev, copy, rest);
      ghost var middle, params := Cells(x), x.params[..];
      if size > rounded {
        Step4(x, at + rounded, size - rounded, dev, copy);
        TwoParts(math, Rule(), x, future, at, at + rounded, at + size, cells, middle, params, streams.convert);
      }
    }

    // -------------------------------------------------------------------------------------------
    // The interface
    // -------------------------------------------------------------------------------------------

    /** `ds_adam_step`: every parameter makes one Adam step, by the rule of the given step number. */
    method DsAdamStep(step: nat, lr: real, beta1: real, beta2: real, epsilon: real, weightDecay: real,
                      biasCorrection: bool, x: Tensors)
      requires Valid() && x.Fit() && x.Avoids(streams.first) && x.Avoids(streams.second)
      requires streams.Idle() && streams.index < 2 && streams.Pinned()
      modifies this, x.params, x.expAvg, x.expAvgSq, streams, streams.first, streams.second
      ensures Valid() && streams.Idle() && streams.index < 2
      ensures Stepped(math, RuleOfStep(math, lr, beta1, beta2, epsilon, weightDecay, adamwMode, biasCorrection, step),
                      x.grads[..], 0, x.params.Length, old(Cells(x)), Cells(x))
    {
      hide Adam, Stepped, Future;
      IncrementStep(step, beta1, beta2);
      UpdateState(lr, epsilon, weightDecay, biasCorrection);
      var none := new real[0];
      Step8(x, 0, x.params.Length, none, false);
      streams.SynchronizeStreams(none);
    }

    /** `ds_adam_step_plus_copy`: besides, the device array holds the converted parameters. */
    method DsAdamStepPlusCopy(step: nat, lr: real, beta1: real, beta2: real, epsilon: real, weightDecay: real,
                              biasCorrection: bool, x: Tensors, dev: array<real>)
      requires Valid() && Separate(x, dev) && streams.Idle() && dev.Length == x.params.Length
      requires Safe(LoopLengths(width, x.params.Length, [8, 4, 1]))
      modifies this, x.params, x.expAvg, x.expAvgSq, streams, streams.first, streams.second, dev
      ensures Valid() && streams.Idle() && Separate(x, dev)
      ensures Stepped(math, RuleOfStep(math, lr, beta1, beta2, epsilon, weightDecay, adamwMode, biasCorrection, step),
                      x.grads[..], 0, x.params.Length, old(Cells(x)), Cells(x))
      ensures forall k :: 0 <= k < dev.Length ==> dev[k] == streams.convert(x.params[k])
    {
      hide Adam, Stepped, Future;
      IncrementStep(step, beta1, beta2);
      UpdateState(lr, epsilon, weightDecay, biasCorrection);
      Step8(x, 0, x.params.Length, dev, true);
      ghost var delivered := streams.Delivered(dev);
      streams.SynchronizeStreams(dev);
      forall k | 0 <= k < dev.Length ensures dev[k] == streams.convert(x.params[k]) {
        assert dev[..][k] == delivered[k];
      }
    }
  }

  // ---------------------------------------------------------------------------------------------
  // Vector instructions, lane by lane
  // ---------------------------------------------------------------------------------------------

  function MulAdd(x: real, y: real, z: real): real {
    x * y + z
  }

  lemma LaneIsAdam(f: Math, r: Rule, c: Constants, cell: Cell, grad: real, g: real, m: real, v: real, root: real,
                   d: real, q: real, p: real)
    requires AreConstants(f, r, c)
    requires g == if r.weightDecay > 0.0 && !r.adamw then MulAdd(cell.param, r.weightDecay, grad) else grad
    requires m == MulAdd(g, c.beta1Minus1, Times(cell.momentum, r.beta1))
    requires v == MulAdd(Times(g, g), c.beta2Minus1, Times(cell.variance, r.beta2))
    requires root == f.Sqrt(v) && d == MulAdd(root, r.bc2, r.eps) && q == f.Div(m, d)
    requires p == if r.weightDecay > 0.0 && r.adamw then MulAdd(cell.param, c.wDecay, cell.param) else cell.param
    ensures Cell(MulAdd(q, c.stepSize, p), m, v) == Adam(f, r, grad, cell)
  {
    hide AreConstants, Adam;
    assert m == g * c.beta1Minus1 + cell.momentum * r.beta1;
    assert v == (g * g) * c.beta2Minus1 + cell.variance * r.beta2;
    assert d == root * r.bc2 + r.eps;
    assert MulAdd(q, c.stepSize, p) == q * c.stepSize + p;
    UpdateIsAdam(f, r, c, cell, grad, g, m, v, root, d, q, p);
  }

  function Mul(x: seq<real>, y: seq<real>): (r: seq<real>)
    requires |x| == |y|
    ensures |r| == |x| && forall l :: 0 <= l < |x| ==> r[l] == Times(x[l], y[l])
  {
    seq(|x|, l requires 0 <= l < |x| => Times(x[l], y[l]))
  }

  function MulBy(x: seq<real>, y: real): (r: seq<real>)
    ensures |r| == |x| && forall l :: 0 <= l < |x| ==> r[l] == Times(x[l], y)
  {
    seq(|x|, l requires 0 <= l < |x| => Times(x[l], y))
  }

  function FmaBy(x: seq<real>, y: real, z: seq<real>): (r: seq<real>)
    requires |x| == |z|
    ensures |r| == |x| && forall l :: 0 <= l < |x| ==> r[l] == MulAdd(x[l], y, z[l])
  {
    seq(|x|, l requires 0 <= l < |x| => MulAdd(x[l], y, z[l]))
  }

  function FmaTo(x: seq<real>, y: real, z: real): (r: seq<real>)
    ensures |r| == |x| && forall l :: 0 <= l < |x| ==> r[l] == MulAdd(x[l], y, z)
  {
    seq(|x|, l requires 0 <= l < |x| => MulAdd(x[l], y, z))
  }

  function Sqrt(f: Math, x: seq<real>): (r: seq<real>)
    ensures |r| == |x| && forall l :: 0 <= l < |x| ==> r[l] == f.Sqrt(x[l])
  {
    seq(|x|, l requires 0 <= l < |x| => f.Sqrt(x[l]))
  }

  function Div(f: Math, x: seq<real>, y: seq<real>): (r: seq<real>)
    requires |x| == |y|
    ensures |r| == |x| && forall l :: 0 <= l < |x| ==> r[l] == f.Div(x[l], y[l])
  {
    seq(|x|, l requires 0 <= l < |x| => f.Div(x[l], y[l]))
  }
}
