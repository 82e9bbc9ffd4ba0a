/** Process groups of a tensor x pipeline x data layout: get_mpu_ranks of
    deepspeed/checkpoint/reshape_meg_2d.py. */
module ProcessGroups {
  import opened Arithmetic

  /** Entry (q, r) of a table with rows of length d. */
  function Index(q: nat, r: nat, d: nat): nat { q * d + r }

  /** The rank at pipeline stage i, data-parallel index k, tensor index j. */
  function RankAt(tp: nat, dp: nat, i: nat, k: nat, j: nat): nat { Index(Index(i, k, dp), j, tp) }

  lemma SplitIndex(a: nat, n: nat, d: nat) returns (q: nat, r: nat)
    requires a < n * d
    ensures q < n && r < d && a == Index(q, r, d)
  {
    if d == 0 { MulCommute(n, d); }
    QuotientBound(a, n, d);
    q, r := a / d, a % d;
  }

  lemma IndexInside(q: nat, r: nat, n: nat, d: nat)
    requires q < n && r < d
    ensures Index(q, r, d) < n * d
  {
    IndexBound(q, n, d, r);
  }

  lemma SameIndex(q: nat, r: nat, p: nat, s: nat, d: nat)
    requires r < d && s < d && Index(q, r, d) == Index(p, s, d)
    ensures q == p && r == s
  {
    DivModUnique(Index(q, r, d), d, q, r);
    DivModUnique(Index(q, r, d), d, p, s);
  }

  lemma SplitRank(rank: nat, tp: nat, pp: nat, dp: nat) returns (i: nat, k: nat, j: nat)
    requires rank < (pp * dp) * tp
    ensures i < pp && k < dp && j < tp && rank == RankAt(tp, dp, i, k, j)
  {
    var g;
    g, j := SplitIndex(rank, pp * dp, tp);
    i, k := SplitIndex(g, pp, dp);
  }

  lemma RankInside(tp: nat, pp: nat, dp: nat, i: nat, k: nat, j: nat)
    requires i < pp && k < dp && j < tp
    ensures RankAt(tp, dp, i, k, j) < (pp * dp) * tp
  {
    IndexInside(i, k, pp, dp);
    IndexInside(Index(i, k, dp), j, pp * dp, tp);
  }

  /** A rank has one triple of coordinates. */
  lemma SameRank(tp: nat, dp: nat, i: nat, k: nat, j: nat, a: nat, c: nat, b: nat)
    requires k < dp && c < dp && j < tp && b < tp && RankAt(tp, dp, i, k, j) == RankAt(tp, dp, a, c, b)
    ensures i == a && k == c && j == b
  {
    SameIndex(Index(i, k, dp), j, Index(a, c, dp), b, tp);
    SameIndex(i, k, a, c, dp);
  }

  // ---------------------------------------------------------------------------------------------
  // The families of groups
  // ---------------------------------------------------------------------------------------------

  ghost predicate DpGroup(group: seq<nat>, tp: nat, dp: nat, i: nat, j: nat) {
    |group| == dp && forall k: nat :: k < dp ==> group[k] == RankAt(tp, dp, i, k, j)
  }

  /** Group i*tp + j holds the ranks of stage i and tensor index j. */
  ghost predicate DpForm(groups: seq<seq<nat>>, tp: nat, dp: nat, stages: nat) {
    |groups| == stages * tp &&
    forall i: nat, j: nat :: i < stages && j < tp ==>
      Index(i, j, tp) < |groups| && DpGroup(groups[Index(i, j, tp)], tp, dp, i, j)
  }

  ghost predicate MpGroup(group: seq<nat>, tp: nat, pp: nat, dp: nat, k: nat) {
    |group| == pp * tp &&
    forall i: nat, j: nat :: i < pp && j < tp ==>
      Index(i, j, tp) < |group| && group[Index(i, j, tp)] == RankAt(tp, dp, i, k, j)
  }

  /** Group k holds the ranks of data-parallel index k, stage by stage. */
  ghost predicate MpForm(groups: seq<seq<nat>>, tp: nat, pp: nat, dp: nat) {
    |groups| == dp && forall k: nat :: k < dp ==> MpGroup(groups[k], tp, pp, dp, k)
  }

  ghost predicate TpGroup(group: seq<nat>, tp: nat, g: nat) {
    |group| == tp && forall j: nat :: j < tp ==> group[j] == Index(g, j, tp)
  }

  /** Group g holds tp consecutive ranks. */
  ghost predicate TpForm(groups: seq<seq<nat>>, tp: nat, pp: nat, dp: nat) {
    |groups| == pp * dp && forall g: nat :: g < pp * dp ==> TpGroup(groups[g], tp, g)
  }

  // ---------------------------------------------------------------------------------------------
  // get_mpu_ranks
  // ---------------------------------------------------------------------------------------------

  lemma StrideStep(start: nat, stop: nat, step: nat, count: nat, m: nat)
    requires step > 0 && m <= count
    requires count > 0 ==> start + (count - 1) * step < stop
    requires stop <= start + count * step
    ensures start + m * step < stop <==> m < count
    ensures (m + 1) * step == m * step + step
  {
    Distribute(m, 1, step);
    Distribute(count - 1, m, step);
    ProductSign(count - 1 - m, step);
    if m == count { assert m * step == count * step; }
  }

  /** `list(range(start, stop, step))`, known to have `count` elements. */
  method StridedRange(start: nat, stop: nat, step: nat, ghost count: nat) returns (ranks: seq<nat>)
    requires step > 0
    requires count > 0 ==> start + (count - 1) * step < stop
    requires stop <= start + count * step
    ensures |ranks| == count && forall k :: 0 <= k < count ==> ranks[k] == start + k * step
  {
    ranks := [];
    var r := start;
    while r < stop
      invariant |ranks| <= count && r == start + |ranks| * step
      invariant forall k :: 0 <= k < |ranks| ==> ranks[k] == start + k * step
      decreases stop - r
    {
      StrideStep(start, stop, step, count, |ranks|);
      ranks := ranks + [r];
      r := r + step;
    }
    StrideStep(start, stop, step, count, |ranks|);
  }

  lemma StageStride(tp: nat, dp: nat, i: nat, j: nat)
    requires dp > 0 && j < tp
    ensures i * (tp * dp) + j + (dp - 1) * tp < (i + 1) * (tp * dp) <= i * (tp * dp) + j + dp * tp
  {
    Distribute(i, 1, tp * dp);
    Distribute(dp, 1, tp);
    MulCommute(tp, dp);
  }

  lemma StageRank(tp: nat, dp: nat, i: nat, k: nat, j: nat)
    ensures i * (tp * dp) + j + k * tp == RankAt(tp, dp, i, k, j)
  {
    Distribute(i * dp, k, tp);
    MulCommute(tp, dp);
    MulAssoc(i, dp, tp);
  }

  /** The inner loop over the tensor indices of one stage. */
  method StageGroups(tp: nat, dp: nat, i: nat) returns (groups: seq<seq<nat>>)
    requires tp > 0 && dp > 0
    ensures |groups| == tp && forall j: nat :: j < tp ==> DpGroup(groups[j], tp, dp, i, j)
  {
    var startRank, endRank := i * (tp * dp), (i + 1) * (tp * dp);
    groups := [];
    for j := 0 to tp
      invariant |groups| == j && forall c: nat :: c < j ==> DpGroup(groups[c], tp, dp, i, c)
    {
      StageStride(tp, dp, i, j);
      var ranks := StridedRange(startRank + j, endRank, tp, dp);
      forall k: nat | k < dp ensures ranks[k] == RankAt(tp, dp, i, k, j) { StageRank(tp, dp, i, k, j); }
      groups := groups + [ranks];
    }
  }

  lemma StagesGrow(groups: seq<seq<nat>>, more: seq<seq<nat>>, tp: nat, dp: nat, i: nat)
    requires DpForm(groups, tp, dp, i)
    requires |more| == tp && forall j: nat :: j < tp ==> DpGroup(more[j], tp, dp, i, j)
    ensures DpForm(groups + more, tp, dp, i + 1)
  {
    Distribute(i, 1, tp);
    forall a: nat, j: nat | a < i + 1 && j < tp
      ensures Index(a, j, tp) < |groups + more| && DpGroup((groups + more)[Index(a, j, tp)], tp, dp, a, j)
    {
      if a < i {
        assert DpGroup(groups[Index(a, j, tp)], tp, dp, a, j);
      } else {
        assert (groups + more)[Index(a, j, tp)] == more[j];
      }
    }
  }

  /** The k-th rank of every data-parallel group. */
  method PickFrom(dpGroups: seq<seq<nat>>, k: nat, tp: nat, pp: nat, dp: nat) returns (ranks: seq<nat>)
    requires k < dp && DpForm(dpGroups, tp, dp, pp)
    ensures MpGroup(ranks, tp, pp, dp, k)
  {
    ranks := [];
    for g := 0 to |dpGroups|
      invariant |ranks| == g
      invariant forall c :: 0 <= c < g ==> k < |dpGroups[c]| && ranks[c] == dpGroups[c][k]
    {
      ghost var i, j := SplitIndex(g, pp, tp);
      assert DpGroup(dpGroups[Index(i, j, tp)], tp, dp, i, j);
      ranks := ranks + [dpGroups[g][k]];
    }
    forall i: nat, j: nat | i < pp && j < tp
      ensures Index(i, j, tp) < |ranks| && ranks[Index(i, j, tp)] == RankAt(tp, dp, i, k, j)
    {
      assert DpGroup(dpGroups[Index(i, j, tp)], tp, dp, i, j);
    }
  }

  /** The capped sizes and the quotients the source computes. */
  lemma WorldSizes(tp: nat, pp: nat, dp: nat, world: nat)
    requires tp > 0 && pp > 0 && dp > 0 && world == tp * pp * dp
    ensures world == (pp * dp) * tp == (tp * dp) * pp
    ensures tp * pp > 0 && tp <= world && pp <= world
    ensures world / (tp * pp) == dp && world / pp == tp * dp && world / tp == pp * dp
  {
    MulCommute(tp * pp, dp);
    MulAssoc(tp, pp, dp);
    MulCommute(tp, pp * dp);
    MulAssoc(tp, dp, pp);
    MulCommute(pp, dp);
    ProductSign(tp, pp);
    ProductSign(pp, dp);
    ProductSign(tp, dp);
    AtLeast(pp * dp, tp);
    AtLeast(tp * dp, pp);
    DivModUnique(world, tp * pp, dp, 0);
    DivModUnique(world, pp, tp * dp, 0);
    DivModUnique(world, tp, pp * dp, 0);
  }

  lemma AtLeast(a: nat, d: nat)
    requires a > 0 && d > 0
    ensures a * d >= d
  {
  }

  /** `get_mpu_ranks`: the tensor groups, the model-parallel groups and the data-parallel groups. */
  method GetMpuRanks(tp: nat, pp: nat, dp: nat)
    returns (tpGroups: seq<seq<nat>>, mpGroups: seq<seq<nat>>, dpGroups: seq<seq<nat>>)
    requires tp > 0 && pp > 0 && dp > 0
    ensures TpForm(tpGroups, tp, pp, dp) && MpForm(mpGroups, tp, pp, dp) && DpForm(dpGroups, tp, dp, pp)
  {
    var world := tp * pp * dp;
    WorldSizes(tp, pp, dp, world);
    var tensorSize := if tp < world then tp else world;
    var pipelineSize := if pp < world then pp else world;
    var dataSize := world / (tensorSize * pipelineSize);
    assert tensorSize == tp && pipelineSize == pp && dataSize == dp;
    dpGroups := [];
    for i := 0 to pipelineSize
      invariant DpForm(dpGroups, tp, dp, i)
    {
      var stage := StageGroups(tensorSize, dataSize, i);
      StagesGrow(dpGroups, stage, tp, dp, i);
      dpGroups := dpGroups + stage;
    }
    mpGroups := [];
    for k := 0 to dataSize
      invariant |mpGroups| == k && forall c: nat :: c < k ==> MpGroup(mpGroups[c], tp, pp, dp, c)
    {
      var ranks := PickFrom(dpGroups, k, tp, pp, dp);
      mpGroups := mpGroups + [ranks];
    }
    tpGroups := TensorGroups(tensorSize, world / tensorSize);
  }

  /** The loop over the tensor groups. */
  method TensorGroups(tp: nat, count: nat) returns (groups: seq<seq<nat>>)
    ensures |groups| == count && forall g: nat :: g < count ==> TpGroup(groups[g], tp, g)
  {
    groups := [];
    for g := 0 to count
      invariant |groups| == g && forall c: nat :: c < g ==> TpGroup(groups[c], tp, c)
    {
      Distribute(g, 1, tp);
      var ranks := StridedRange(g * tp, (g + 1) * tp, 1, tp);
      groups := groups + [ranks];
    }
  }

  // ---------------------------------------------------------------------------------------------
  // Partitions and intersections
  // ---------------------------------------------------------------------------------------------

  ghost predicate At(groups: seq<seq<nat>>, g: nat, x: nat, rank: nat) {
    g < |groups| && x < |groups[g]| && groups[g][x] == rank
  }

  ghost predicate Covered(groups: seq<seq<nat>>, r: nat) {
    exists g: nat, x: nat :: At(groups, g, x, r)
  }

  /** Every number below n occurs at exactly one place of the family, and nothing else occurs. */
  ghost predicate Partitions(groups: seq<seq<nat>>, n: nat) {
    (forall g: nat, x: nat, r: nat :: At(groups, g, x, r) ==> r < n) &&
    (forall r: nat :: r < n ==> Covered(groups, r)) &&
    (forall g: nat, x: nat, h: nat, y: nat, r: nat :: At(groups, g, x, r) && At(groups, h, y, r) ==> g == h && x == y)
  }

  /** The two groups share exactly one rank. */
  ghost predicate MeetOnce(a: seq<nat>, b: seq<nat>) {
    exists r :: r in a && r in b && forall q :: q in a && q in b ==> q == r
  }

  lemma DpEntry(groups: seq<seq<nat>>, tp: nat, pp: nat, dp: nat, g: nat, x: nat, r: nat) returns (i: nat, j: nat)
    requires DpForm(groups, tp, dp, pp) && At(groups, g, x, r)
    ensures i < pp && j < tp && g == Index(i, j, tp) && x < dp && r == RankAt(tp, dp, i, x, j)
  {
    i, j := SplitIndex(g, pp, tp);
    assert DpGroup(groups[Index(i, j, tp)], tp, dp, i, j);
  }

  lemma MpEntry(groups: seq<seq<nat>>, tp: nat, pp: nat, dp: nat, k: nat, x: nat, r: nat) returns (i: nat, j: nat)
    requires MpForm(groups, tp, pp, dp) && At(groups, k, x, r)
    ensures i < pp && j < tp && k < dp && x == Index(i, j, tp) && r == RankAt(tp, dp, i, k, j)
  {
    assert MpGroup(groups[k], tp, pp, dp, k);
    i, j := SplitIndex(x, pp, tp);
  }

  /** The data-parallel groups partition the ranks. */
  lemma DpPartition(groups: seq<seq<nat>>, tp: nat, pp: nat, dp: nat)
    requires DpForm(groups, tp, dp, pp)
    ensures Partitions(groups, (pp * dp) * tp)
  {
    forall g: nat, x: nat, r: nat | At(groups, g, x, r) ensures r < (pp * dp) * tp {
      var i, j := DpEntry(groups, tp, pp, dp, g, x, r);
      RankInside(tp, pp, dp, i, x, j);
    }
    forall r: nat | r < (pp * dp) * tp ensures Covered(groups, r) {
      var i, k, j := SplitRank(r, tp, pp, dp);
      assert DpGroup(groups[Index(i, j, tp)], tp, dp, i, j);
      assert At(groups, Index(i, j, tp), k, r);
    }
    forall g: nat, x: nat, h: nat, y: nat, r: nat | At(groups, g, x, r) && At(groups, h, y, r)
      ensures g == h && x == y
    {
      var i, j := DpEntry(groups, tp, pp, dp, g, x, r);
      var a, b := DpEntry(groups, tp, pp, dp, h, y, r);
      SameRank(tp, dp, i, x, j, a, y, b);
    }
  }

  /** The model-parallel groups partition the ranks. */
  lemma MpPartition(groups: seq<seq<nat>>, tp: nat, pp: nat, dp: nat)
    requires MpForm(groups, tp, pp, dp)
    ensures Partitions(groups, (pp * dp) * tp)
  {
    forall k: nat, x: nat, r: nat | At(groups, k, x, r) ensures r < (pp * dp) * tp {
      var i, j := MpEntry(groups, tp, pp, dp, k, x, r);
      RankInside(tp, pp, dp, i, k, j);
    }
    forall r: nat | r < (pp * dp) * tp ensures Covered(groups, r) {
      var i, k, j := SplitRank(r, tp, pp, dp);
      assert MpGroup(groups[k], tp, pp, dp, k);
      assert At(groups, k, Index(i, j, tp), r);
    }
    forall k: nat, x: nat, h: nat, y: nat, r: nat | At(groups, k, x, r) && At(groups, h, y, r)
      ensures k == h && x == y
    {
      var i, j := MpEntry(groups, tp, pp, dp, k, x, r);
      var a, b := MpEntry(groups, tp, pp, dp, h, y, r);
      SameRank(tp, dp, i, k, j, a, h, b);
    }
  }

  /** The tensor groups partition the ranks. */
  lemma TpPartition(groups: seq<seq<nat>>, tp: nat, pp: nat, dp: nat)
    requires TpForm(groups, tp, pp, dp)
    ensures Partitions(groups, (pp * dp) * tp)
  {
    forall g: nat, j: nat, r: nat | At(groups, g, j, r) ensures r == Index(g, j, tp) < (pp * dp) * tp && j < tp {
      assert TpGroup(groups[g], tp, g);
      IndexInside(g, j, pp * dp, tp);
    }
    forall r: nat | r < (pp * dp) * tp ensures Covered(groups, r) {
      var g, j := SplitIndex(r, pp * dp, tp);
      assert TpGroup(groups[g], tp, g);
      assert At(groups, g, j, r);
    }
    forall g: nat, x: nat, h: nat, y: nat, r: nat | At(groups, g, x, r) && At(groups, h, y, r)
      ensures g == h && x == y
    {
      SameIndex(g, x, h, y, tp);
    }
  }

  /** A data-parallel and a model-parallel group share exactly one rank. */
  lemma DpMeetsMp(dpGroups: seq<seq<nat>>, mpGroups: seq<seq<nat>>, tp: nat, pp: nat, dp: nat, g: nat, k: nat)
    requires DpForm(dpGroups, tp, dp, pp) && MpForm(mpGroups, tp, pp, dp)
    requires g < |dpGroups| && k < |mpGroups|
    ensures MeetOnce(dpGroups[g], mpGroups[k])
  {
    var i, j := SplitIndex(g, pp, tp);
    var r := RankAt(tp, dp, i, k, j);
    assert r in dpGroups[g] by {
      assert DpGroup(dpGroups[Index(i, j, tp)], tp, dp, i, j);
      assert dpGroups[g][k] == r;
    }
    assert r in mpGroups[k] by {
      assert MpGroup(mpGroups[k], tp, pp, dp, k);
      assert mpGroups[k][Index(i, j, tp)] == r;
    }
    OnlyCommonRank(dpGroups, mpGroups, tp, pp, dp, i, j, k);
  }

  lemma OnlyCommonRank(dpGroups: seq<seq<nat>>, mpGroups: seq<seq<nat>>, tp: nat, pp: nat, dp: nat, i: nat, j: nat,
                       k: nat)
    requires DpForm(dpGroups, tp, dp, pp) && MpForm(mpGroups, tp, pp, dp) && j < tp
    requires Index(i, j, tp) < |dpGroups| && k < |mpGroups|
    ensures forall q :: q in dpGroups[Index(i, j, tp)] && q in mpGroups[k] ==> q == RankAt(tp, dp, i, k, j)
  {
    var g := Index(i, j, tp);
    forall q | q in dpGroups[g] && q in mpGroups[k] ensures q == RankAt(tp, dp, i, k, j) {
      var x: nat :| x < |dpGroups[g]| && dpGroups[g][x] == q;
      var y: nat :| y < |mpGroups[k]| && mpGroups[k][y] == q;
      CommonRank(dpGroups, mpGroups, tp, pp, dp, i, j, k, x, y, q);
    }
  }

  lemma CommonRank(dpGroups: seq<seq<nat>>, mpGroups: seq<seq<nat>>, tp: nat, pp: nat, dp: nat,
                   i: nat, j: nat, k: nat, x: nat, y: nat, q: nat)
    requires DpForm(dpGroups, tp, dp, pp) && MpForm(mpGroups, tp, pp, dp) && j < tp
    requires At(dpGroups, Index(i, j, tp), x, q) && At(mpGroups, k, y, q)
    ensures q == RankAt(tp, dp, i, k, j)
  {
    var a, b := DpEntry(dpGroups, tp, pp, dp, Index(i, j, tp), x, q);
    var c, d := MpEntry(mpGroups, tp, pp, dp, k, y, q);
    SameIndex(i, j, a, b, tp);
    SameRank(tp, dp, a, x, b, c, k, d);
  }

  /** A data-parallel and a tensor group share at most one rank. */
  lemma DpMeetsTpAtMostOnce(dpGroups: seq<seq<nat>>, tpGroups: seq<seq<nat>>, tp: nat, pp: nat, dp: nat,
                            g: nat, t: nat, q: nat, r: nat)
    requires DpForm(dpGroups, tp, dp, pp) && TpForm(tpGroups, tp, pp, dp)
    requires g < |dpGroups| && t < |tpGroups|
    requires q in dpGroups[g] && q in tpGroups[t] && r in dpGroups[g] && r in tpGroups[t]
    ensures q == r
  {
    var x: nat :| x < |dpGroups[g]| && dpGroups[g][x] == q;
    var y: nat :| y < |dpGroups[g]| && dpGroups[g][y] == r;
    var i, j := DpEntry(dpGroups, tp, pp, dp, g, x, q);
    var a, b := DpEntry(dpGroups, tp, pp, dp, g, y, r);
    SameIndex(i, j, a, b, tp);
    assert TpGroup(tpGroups[t], tp, t);
    var m: nat :| m < tp && tpGroups[t][m] == q;
    var n: nat :| n < tp && tpGroups[t][n] == r;
    SameIndex(Index(i, x, dp), j, t, m, tp);
    SameIndex(Index(a, y, dp), b, t, n, tp);
  }

  /** Every tensor group lies inside one model-parallel group. */
  lemma TpInsideMp(tpGroups: seq<seq<nat>>, mpGroups: seq<seq<nat>>, tp: nat, pp: nat, dp: nat, t: nat)
    requires TpForm(tpGroups, tp, pp, dp) && MpForm(mpGroups, tp, pp, dp) && t < |tpGroups|
    ensures exists k: nat :: k < |mpGroups| && forall r :: r in tpGroups[t] ==> r in mpGroups[k]
  {
    var i, k := SplitIndex(t, pp, dp);
    assert TpGroup(tpGroups[t], tp, t) && MpGroup(mpGroups[k], tp, pp, dp, k);
    forall r | r in tpGroups[t] ensures r in mpGroups[k] {
      var j: nat :| j < tp && tpGroups[t][j] == r;
      assert mpGroups[k][Index(i, j, tp)] == r;
    }
  }
}
