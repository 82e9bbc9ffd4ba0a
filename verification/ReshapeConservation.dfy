/** Reshaping a checkpoint loses no optimizer state: what the new ranks of a cell read, joined in
    data-parallel order, is what the source ranks of that cell hold. */
module ReshapeConservation {
  import opened Arithmetic
  import opened Meg2dReshape
  import opened Reshape3d
  import opened Sequences
  import StateMerge
  import opened Wrappers
  import opened ZeroCheckpoint

  /** The shards of one source rank, in data-parallel order. */
  ghost function RankShards(src: Desc, rank: nat): seq<nat> {
    seq(src.dp, y requires 0 <= y < src.dp => rank + y * (src.pp * src.tp))
  }

  /** The shards of the source ranks merged into cell (i, j), rank by rank. */
  ghost function ShardsByRank(src: Desc, tgt: Desc, i: nat, j: nat): seq<seq<nat>>
    requires Positive(src) && Reshapable(src, tgt) && TpFactor(src, tgt) > 0
  {
    var b, s := TpFactor(src, tgt), CellSize(src, tgt);
    seq(s, x requires 0 <= x < s => RankShards(src, RankAt(src.tp, b, j, i * s + x)))
  }

  /** Equal parts that list consecutive stretches of `entries` list, joined, a prefix of `entries`. */
  lemma {:induction false} FlattenForm(parts: seq<seq<nat>>, entries: nat -> nat, u: nat)
    requires forall d :: 0 <= d < |parts| ==> CellForm(parts[d], entries, u, d)
    ensures |Flatten(parts)| == |parts| * u
    ensures forall q :: 0 <= q < |Flatten(parts)| ==> Flatten(parts)[q] == entries(q)
  {
    if parts != [] {
      var n := |parts| - 1;
      var before, last := parts[..n], parts[n];
      FlattenForm(before, entries, u);
      Distribute(n, 1, u);
      var flat, start := Flatten(parts), n * u;
      assert flat == Flatten(before) + last;
      CellEntries(last, entries, u, n, start);
      forall q | 0 <= q < |flat| ensures flat[q] == entries(q) {
        if q >= start { assert flat[q] == last[q - start]; }
      }
    }
  }

  function CellShards(src: Desc, b: nat, s: nat, i: nat, j: nat): nat -> nat
    requires b > 0 && src.dp > 0
  {
    e => FlatRank(src, b, s, i, j, e)
  }

  /** The new cells of (i, j), joined in data-parallel order, list the source shards rank by rank. */
  lemma CellsListSource(cells: seq<seq<nat>>, src: Desc, tgt: Desc, i: nat, j: nat)
    requires Positive(src) && Reshapable(src, tgt) && TpFactor(src, tgt) > 0 && i < tgt.pp && j < tgt.tp
    requires |cells| == tgt.dp
    requires forall d :: 0 <= d < tgt.dp ==>
      ShareForm(cells[d], src, TpFactor(src, tgt), CellSize(src, tgt), ShareSize(src, tgt), d, i, j)
    ensures Flatten(cells) == Flatten(ShardsByRank(src, tgt, i, j))
  {
    var b, s, u := TpFactor(src, tgt), CellSize(src, tgt), ShareSize(src, tgt);
    Contraction3(src, tgt);
    var entries := CellShards(src, b, s, i, j);
    forall d | 0 <= d < tgt.dp ensures CellForm(cells[d], entries, u, d) {
      ShareCellForm(cells[d], src, b, s, u, d, i, j);
    }
    FlattenForm(cells, entries, u);
    var ranks := ShardsByRank(src, tgt, i, j);
    forall x | 0 <= x < s ensures CellForm(ranks[x], entries, src.dp, x) {
      RankShardsForm(src, b, s, i, j, x);
    }
    FlattenForm(ranks, entries, src.dp);
    SameEntries(Flatten(cells), Flatten(ranks), entries);
  }

  lemma ShareCellForm(cell: seq<nat>, src: Desc, b: nat, s: nat, u: nat, d: nat, i: nat, j: nat)
    requires b > 0 && src.dp > 0 && ShareForm(cell, src, b, s, u, d, i, j)
    ensures CellForm(cell, CellShards(src, b, s, i, j), u, d)
  {
    forall k | 0 <= k < u ensures cell[k] == FlatRank(src, b, s, i, j, d * u + k) {
      assert cell[k] == RankOf3(Place3(d, i, j, k), src, b, s, u);
    }
  }

  lemma SameEntries(a: seq<nat>, b: seq<nat>, entries: nat -> nat)
    requires |a| == |b|
    requires forall q :: 0 <= q < |a| ==> a[q] == entries(q)
    requires forall q :: 0 <= q < |b| ==> b[q] == entries(q)
    ensures a == b
  {
  }

  lemma RankShardsForm(src: Desc, b: nat, s: nat, i: nat, j: nat, x: nat)
    requires b > 0 && src.dp > 0
    ensures CellForm(RankShards(src, RankAt(src.tp, b, j, i * s + x)), CellShards(src, b, s, i, j), src.dp, x)
  {
    var shards := RankShards(src, RankAt(src.tp, b, j, i * s + x));
    forall y | 0 <= y < src.dp ensures shards[y] == FlatRank(src, b, s, i, j, x * src.dp + y) {
      DivModUnique(x * src.dp + y, src.dp, x, y);
    }
  }

  /** The tensor at a path over several states, joined. */
  ghost function DataOver(states: seq<StateMerge.State>, path: seq<StateMerge.Step>): seq<real> {
    if states == [] then [] else DataOver(states[..|states| - 1], path) + StateMerge.Data(states[|states| - 1], path)
  }

  lemma {:induction false} DataOverCells(states: seq<StateMerge.State>, cells: seq<seq<nat>>,
                                         files: seq<StateMerge.State>, ignored: seq<StateMerge.Key>, strip: bool,
                                         path: seq<StateMerge.Step>)
    requires Shards(files) && |states| == |cells|
    requires forall d :: 0 <= d < |cells| ==> Reads(Some(states[d]), files, cells[d], ignored, strip)
    ensures InFiles(Flatten(cells), files)
    ensures DataOver(states, path) == Joined(files, Flatten(cells), ignored, strip, path)
  {
    if cells != [] {
      var n := |cells| - 1;
      DataOverCells(states[..n], cells[..n], files, ignored, strip, path);
      assert Reads(Some(states[n]), files, cells[n], ignored, strip);
      assert DataOf(Some(states[n]), path) == Joined(files, cells[n], ignored, strip, path);
      JoinedConcat(files, Flatten(cells[..n]), cells[n], ignored, strip, path);
    }
  }

  /** For every target cell and every tensor path: the states `get_state_for_rank` returns for the new
      data-parallel ranks, joined, are the contributions of the cell's source ranks, each rank's shards in
      data-parallel order. */
  lemma ReshapePreservesState(c: Checkpoint, states: seq<StateMerge.State>, i: nat, j: nat,
                              ignored: seq<StateMerge.Key>, strip: bool, path: seq<StateMerge.Step>)
    requires c.Valid() && i < c.mapped.pp && j < c.mapped.tp
    requires |states| == c.mapped.dp
    requires forall d :: 0 <= d < c.mapped.dp ==>
      Reads(Some(states[d]), c.files, c.Indices(i, j, d), ignored, strip)
    ensures var source := Flatten(ShardsByRank(c.src, c.mapped, i, j));
      InFiles(source, c.files) && DataOver(states, path) == Joined(c.files, source, ignored, strip, path)
  {
    var b, s, u := TpFactor(c.src, c.mapped), CellSize(c.src, c.mapped), ShareSize(c.src, c.mapped);
    var grids := Grids(c.fileMap);
    var cells := seq(|grids|, d requires 0 <= d < |grids| && (i, j) in grids[d] => grids[d][(i, j)]);
    forall d | 0 <= d < c.mapped.dp
      ensures ShareForm(cells[d], c.src, b, s, u, d, i, j) && cells[d] == c.Indices(i, j, d)
    {
      assert grids[d] == c.fileMap[d].data;
    }
    CellsListSource(cells, c.src, c.mapped, i, j);
    DataOverCells(states, cells, c.files, ignored, strip, path);
  }
}
