/** Block-wide tree reduction: reduce_block_into_lanes of csrc/includes/type_shim.h. */
module BlockReduce {
  import opened Arithmetic

  const WARP: nat := 32

  /** The sum of the values whose thread id is l modulo `lanes`. */
  ghost function LaneSum(vals: seq<real>, lanes: nat, l: nat): real
    requires lanes > 0
  {
    if vals == [] then 0.0
    else
      var t := |vals| - 1;
      LaneSum(vals[..t], lanes, l) + if t % lanes == l then vals[t] else 0.0
  }

  /** Residues modulo 2n refine residues modulo n. */
  lemma HalfResidue(t: nat, n: nat, l: nat)
    requires n > 0 && l < n
    ensures t % n == l <==> t % (2 * n) == l || t % (2 * n) == l + n
  {
    var q, r := t / (2 * n), t % (2 * n);
    assert t == q * (2 * n) + r;
    MulAssoc(q, 2, n);
    if r < n {
      DivModUnique(t, n, q * 2, r);
    } else {
      Distribute(q * 2, 1, n);
      DivModUnique(t, n, q * 2 + 1, r - n);
    }
  }

  /** One halving step of the tree: the sums modulo n are pairwise sums modulo 2n. */
  lemma {:induction false} HalvingStep(vals: seq<real>, n: nat, l: nat)
    requires n > 0 && l < n
    ensures LaneSum(vals, n, l) == LaneSum(vals, 2 * n, l) + LaneSum(vals, 2 * n, l + n)
  {
    if vals != [] {
      HalvingStep(vals[..|vals| - 1], n, l);
      HalfResidue(|vals| - 1, n, l);
    }
  }

  /** With as many lanes as values, each lane sums the one value of its own thread. */
  lemma {:induction false} OwnValue(vals: seq<real>, lanes: nat, l: nat)
    requires |vals| <= lanes && l < lanes
    ensures LaneSum(vals, lanes, l) == if l < |vals| then vals[l] else 0.0
  {
    if vals != [] {
      var t := |vals| - 1;
      OwnValue(vals[..t], lanes, l);
      DivModUnique(t, lanes, 0, t);
    }
  }

  // ---------------------------------------------------------------------------------------------
  // One barrier round
  // ---------------------------------------------------------------------------------------------

  /** An interleaving of the active threads of a round: each thread below n takes two steps, first reading
      its two cells, then writing its own. */
  ghost predicate IsInterleaving(schedule: seq<nat>, n: nat) {
    forall t: nat :: multiset(schedule)[t] == if t < n then 2 else 0
  }

  /** The cells after a round in which every thread below n adds the cell n further on to its own. */
  ghost predicate RoundDone(after: seq<real>, before: seq<real>, n: nat) {
    |after| == |before| && 2 * n <= |before| &&
    (forall t :: 0 <= t < n ==> after[t] == before[t] + before[t + n]) &&
    forall t :: n <= t < |before| ==> after[t] == before[t]
  }

  /** How far thread t got: 0 nothing done, 1 sum in its register, 2 sum written. */
  ghost predicate Progress(x: seq<real>, before: seq<real>, n: nat, register: seq<real>, steps: seq<nat>) {
    |x| == |before| && 2 * n <= |before| && |register| == |steps| == n &&
    (forall t :: 0 <= t < n ==>
      (steps[t] <= 1 ==> x[t] == before[t]) &&
      (steps[t] == 1 ==> register[t] == before[t] + before[t + n]) &&
      (steps[t] == 2 ==> x[t] == before[t] + before[t + n])) &&
    forall t :: n <= t < |before| ==> x[t] == before[t]
  }

  /** A round between two barriers, for any interleaving of its threads' reads and writes: no thread reads a
      cell another thread has written, so the outcome is that of all threads acting at once. */
  method Round(x: array<real>, n: nat, schedule: seq<nat>)
    requires 2 * n <= x.Length && IsInterleaving(schedule, n)
    modifies x
    ensures RoundDone(x[..], old(x[..]), n)
  {
    ghost var before := x[..];
    var register := seq(n, _ => 0.0);
    var steps: seq<nat> := seq(n, _ => 0);
    for k := 0 to |schedule|
      invariant Progress(x[..], before, n, register, steps)
      invariant Counted(steps, schedule[..k], n)
    {
      StepsLeft(schedule, k, n, steps);
      register, steps := ThreadStep(x, n, schedule[k], register, steps, before);
    }
    AllDone(schedule, n, steps);
  }

  /** One step of one thread: read both cells, or write the sum. */
  method ThreadStep(x: array<real>, n: nat, tid: nat, register: seq<real>, steps: seq<nat>, ghost before: seq<real>)
    returns (newRegister: seq<real>, newSteps: seq<nat>)
    requires Progress(x[..], before, n, register, steps) && tid < n && steps[tid] <= 1
    modifies x
    ensures Progress(x[..], before, n, newRegister, newSteps)
    ensures newSteps == steps[tid := steps[tid] + 1]
  {
    newRegister, newSteps := register, steps[tid := steps[tid] + 1];
    if steps[tid] == 0 {
      assert x[tid] == x[..][tid] && x[tid + n] == x[..][tid + n];
      newRegister := register[tid := x[tid] + x[tid + n]];
    } else {
      x[tid] := register[tid];
      assert x[..] == old(x[..])[tid := register[tid]];
    }
  }

  /** The step counts are those of the schedule so far. */
  ghost predicate Counted(steps: seq<nat>, schedule: seq<nat>, n: nat) {
    |steps| == n && forall t :: 0 <= t < n ==> steps[t] == multiset(schedule)[t]
  }

  /** The thread scheduled next is active and has a step left; the counts follow. */
  lemma StepsLeft(schedule: seq<nat>, k: nat, n: nat, steps: seq<nat>)
    requires k < |schedule| && IsInterleaving(schedule, n) && Counted(steps, schedule[..k], n)
    ensures var tid := schedule[k];
      tid < n && steps[tid] <= 1 && Counted(steps[tid := steps[tid] + 1], schedule[..k + 1], n)
  {
    var tid := schedule[k];
    assert schedule == schedule[..k] + [tid] + schedule[k + 1..];
    assert multiset(schedule)[tid] >= multiset(schedule[..k])[tid] + 1;
    assert schedule[..k + 1] == schedule[..k] + [tid];
  }

  lemma AllDone(schedule: seq<nat>, n: nat, steps: seq<nat>)
    requires IsInterleaving(schedule, n) && Counted(steps, schedule[..|schedule|], n)
    ensures forall t :: 0 <= t < n ==> steps[t] == 2
  {
    assert schedule[..|schedule|] == schedule;
  }

  // ---------------------------------------------------------------------------------------------
  // The reduction
  // ---------------------------------------------------------------------------------------------

  predicate PowerOfTwo(n: nat) {
    n == 1 || (n > 0 && n % 2 == 0 && PowerOfTwo(n / 2))
  }

  /** Cell t holds the sum of the values of its residue class modulo n. */
  ghost predicate HoldsSums(cells: seq<real>, vals: seq<real>, n: nat) {
    n > 0 && n <= |cells| && forall t :: 0 <= t < n ==> cells[t] == LaneSum(vals, n, t)
  }

  lemma RoundHalves(after: seq<real>, before: seq<real>, vals: seq<real>, n: nat)
    requires n > 0 && HoldsSums(before, vals, 2 * n) && RoundDone(after, before, n)
    ensures HoldsSums(after, vals, n)
  {
    forall t | 0 <= t < n ensures after[t] == LaneSum(vals, n, t) {
      HalvingStep(vals, n, t);
    }
  }

  /** The shared-memory rounds: from one cell per thread down to 64 cells. A schedule is given for the round
      of each active-thread count. */
  method SharedRounds(x: array<real>, vals: seq<real>, schedule: nat -> seq<nat>)
    requires PowerOfTwo(|vals|) && 64 <= |vals| <= x.Length
    requires forall n: nat :: IsInterleaving(schedule(n), n)
    requires forall t :: 0 <= t < |vals| ==> x[t] == vals[t]
    modifies x
    ensures HoldsSums(x[..], vals, 64)
  {
    forall t | 0 <= t < |vals| ensures x[t] == LaneSum(vals, |vals|, t) { OwnValue(vals, |vals|, t); }
    ghost var active: nat := |vals|;
    var i := |vals| / 2;
    while i >= 64
      invariant 64 <= active <= x.Length && PowerOfTwo(active) && i == active / 2
      invariant HoldsSums(x[..], vals, active)
    {
      ghost var before := x[..];
      assert active == 2 * i;
      Round(x, i, schedule(i));
      RoundHalves(x[..], before, vals, i);
      active := i;
      i := i / 2;
    }
    SixtyFour(active);
  }

  lemma SixtyFour(n: nat)
    requires PowerOfTwo(n) && 64 <= n < 128
    ensures n == 64
  {
    assert PowerOfTwo(n / 2) && PowerOfTwo(n / 2 / 2) && PowerOfTwo(n / 2 / 2 / 2);
    assert PowerOfTwo(n / 2 / 2 / 2 / 2) && PowerOfTwo(n / 2 / 2 / 2 / 2 / 2);
    assert PowerOfTwo(n / 2 / 2 / 2 / 2 / 2 / 2);
  }

  /** `__shfl_down_sync` by i over one warp, added to the own value: a lane whose source lies beyond the warp
      reads itself. */
  function ShuffleDownAdd(final: seq<real>, i: nat): (r: seq<real>)
    requires |final| == WARP
    ensures |r| == WARP && forall t :: 0 <= t < WARP ==> r[t] == final[t] + final[if t + i < WARP then t + i else t]
  {
    seq(WARP, t requires 0 <= t < WARP => final[t] + final[if t + i < WARP then t + i else t])
  }

  lemma ShuffleHalves(final: seq<real>, vals: seq<real>, i: nat)
    requires |final| == WARP && 0 < i && 2 * i <= WARP && HoldsSums(final, vals, 2 * i)
    ensures HoldsSums(ShuffleDownAdd(final, i), vals, i)
  {
    forall t | 0 <= t < i ensures ShuffleDownAdd(final, i)[t] == LaneSum(vals, i, t) { HalvingStep(vals, i, t); }
  }

  /** The shuffle rounds of the first warp. */
  method WarpRounds(start: seq<real>, vals: seq<real>, lanes: nat) returns (final: seq<real>)
    requires |start| == WARP && HoldsSums(start, vals, WARP) && lanes in {1, 2, 4, 8, 16, 32}
    ensures |final| == WARP && HoldsSums(final, vals, lanes)
  {
    final := start;
    ghost var active: nat := WARP;
    var i: nat := 16;
    while i >= lanes
      invariant |final| == WARP && HoldsSums(final, vals, active)
      invariant active in {1, 2, 4, 8, 16, 32} && i == active / 2 && active >= lanes
    {
      ShuffleHalves(final, vals, i);
      final := ShuffleDownAdd(final, i);
      active := i;
      i := i / 2;
    }
  }

  /** `reduce_block_into_lanes`, for a power-of-two block size of at least 32 and power-of-two lanes of at most
      32: thread l below `lanes` ends with the sum of all values whose thread id is l modulo `lanes`, whatever
      the interleaving within each round. The threads of the first warp are returned; the source leaves the
      result of the others undefined. */
  method ReduceBlockIntoLanes(x: array<real>, vals: seq<real>, lanes: nat, shareResult: bool, schedule: nat -> seq<nat>)
    returns (final: seq<real>)
    requires PowerOfTwo(|vals|) && WARP <= |vals| <= x.Length && lanes in {1, 2, 4, 8, 16, 32}
    requires forall n: nat :: IsInterleaving(schedule(n), n)
    modifies x
    ensures |final| == WARP && forall l :: 0 <= l < lanes ==> final[l] == LaneSum(vals, lanes, l)
    ensures shareResult ==> forall l :: 0 <= l < lanes ==> x[l] == LaneSum(vals, lanes, l)
  {
    if |vals| >= 64 {
      forall t | 0 <= t < |vals| { x[t] := vals[t]; }
      SharedRounds(x, vals, schedule);
      final := seq(WARP, t requires 0 <= t < WARP reads x => x[t] + x[t + WARP]);
      forall t | 0 <= t < WARP ensures final[t] == LaneSum(vals, WARP, t) { HalvingStep(vals, WARP, t); }
    } else {
      ThirtyTwo(|vals|);
      final := vals;
      forall t | 0 <= t < WARP ensures final[t] == LaneSum(vals, WARP, t) { OwnValue(vals, WARP, t); }
    }
    final := WarpRounds(final, vals, lanes);
    if shareResult {
      forall l | 0 <= l < lanes { x[l] := final[l]; }
    }
  }

  lemma ThirtyTwo(n: nat)
    requires PowerOfTwo(n) && 32 <= n < 64
    ensures n == 32
  {
    assert PowerOfTwo(n / 2) && PowerOfTwo(n / 2 / 2) && PowerOfTwo(n / 2 / 2 / 2);
    assert PowerOfTwo(n / 2 / 2 / 2 / 2) && PowerOfTwo(n / 2 / 2 / 2 / 2 / 2);
  }
}
