/** Contraction of a pipeline x tensor grid of checkpoint ranks:
    deepspeed/checkpoint/reshape_meg_2d.py and partition_data of deepspeed/checkpoint/reshape_utils.py. */
module Meg2dReshape {
  import opened Arithmetic
  import opened Sequences
  import opened Wrappers

  // ---------------------------------------------------------------------------------------------
  // partition_data
  // ---------------------------------------------------------------------------------------------

  /** Part j of a list cut into parts of `size` elements. */
  function Part<T>(s: seq<T>, size: nat, j: nat): (part: seq<T>)
    requires j * size + size <= |s|
    ensures |part| == size && forall k :: 0 <= k < size ==> part[k] == s[j * size + k]
  {
    s[j * size..j * size + size]
  }

  ghost predicate ArePartsOf<T>(parts: seq<seq<T>>, s: seq<T>, size: nat) {
    forall j :: 0 <= j < |parts| ==> j * size + size <= |s| && parts[j] == Part(s, size, j)
  }

  lemma PartsGrow<T>(parts: seq<seq<T>>, s: seq<T>, size: nat, i: nat)
    requires i == |parts| * size && i + size <= |s| && Flatten(parts) == s[..i]
    ensures Flatten(parts + [s[i..i + size]]) == s[..i + size]
  {
    var more := parts + [s[i..i + size]];
    assert more[..|more| - 1] == parts;
  }

  /** `partition_data`: fails (the assertion, a division by zero, or a zero range step) exactly when the
      list is empty or cannot be cut into `n` equal parts; otherwise the n parts, in order, make up the list. */
  method PartitionData<T>(s: seq<T>, n: nat) returns (parts: Option<seq<seq<T>>>)
    ensures parts.Some? <==> n > 0 && |s| > 0 && |s| % n == 0
    ensures parts.Some? ==>
      |parts.value| == n && Flatten(parts.value) == s && ArePartsOf(parts.value, s, |s| / n)
  {
    if n == 0 || |s| % n != 0 || |s| == 0 { return None; }
    var size := |s| / n;
    assert |s| == n * size;
    ProductSign(size - 1, n);
    var list: seq<seq<T>> := [];
    var i := 0;
    while i < |s|
      invariant i == |list| * size <= |s|
      invariant ArePartsOf(list, s, size) && Flatten(list) == s[..i]
    {
      NextPart(i, |list|, n, size);
      PartsGrow(list, s, size, i);
      list := list + [s[i..i + size]];
      i := i + size;
    }
    LastPart(|list|, n, size);
    parts := Some(list);
  }

  lemma NextPart(i: nat, m: nat, n: nat, size: nat)
    requires size > 0 && i == m * size < n * size
    ensures i + size <= n * size && (m + 1) * size == i + size
  {
    Distribute(n, m, size);
    ProductSign(n - m - 1, size);
    Distribute(n - m, 1, size);
    Distribute(m, 1, size);
  }

  lemma LastPart(m: nat, n: nat, size: nat)
    requires size > 0 && m * size == n * size
    ensures m == n
  {
    Distribute(m, n, size);
    ProductSign(m - n, size);
  }

  // ---------------------------------------------------------------------------------------------
  // meg_2d_parallel_map
  // ---------------------------------------------------------------------------------------------

  /** The cells of a grid. A key is the pair of indices the source prints into a string. */
  type Grid = map<(nat, nat), seq<nat>>

  ghost predicate HasCells(data: Grid, p0: nat, p1: nat, t0: nat, t1: nat) {
    forall i: nat, j: nat :: p0 <= i < p1 && t0 <= j < t1 ==> (i, j) in data
  }

  /** The cells t0..t1-1 of row i, joined. */
  ghost function RowOf(data: Grid, i: nat, t0: nat, t1: nat): seq<nat>
    requires forall j: nat :: t0 <= j < t1 ==> (i, j) in data
    decreases t1
  {
    if t1 <= t0 then [] else RowOf(data, i, t0, t1 - 1) + data[(i, t1 - 1)]
  }

  /** The cells of rows p0..p1-1 and columns t0..t1-1, joined row by row. */
  ghost function BlockOf(data: Grid, p0: nat, p1: nat, t0: nat, t1: nat): seq<nat>
    requires HasCells(data, p0, p1, t0, t1)
    decreases p1
  {
    if p1 <= p0 then [] else BlockOf(data, p0, p1 - 1, t0, t1) + RowOf(data, p1 - 1, t0, t1)
  }

  class Meg2dMap {
    const pp: nat
    const tp: nat
    var data: Grid

    constructor (pp: nat, tp: nat)
      ensures this.pp == pp && this.tp == tp && data == map[]
    {
      this.pp, this.tp, data := pp, tp, map[];
    }

    /** Every cell of the grid is present, and nothing else. */
    ghost predicate Full()
      reads this
    {
      forall i: nat, j: nat :: (i, j) in data <==> i < pp && j < tp
    }

    /** Cell (i, j) receives the single rank i*tp + j. */
    method SimpleInit()
      modifies this
      ensures Full() && forall i: nat, j: nat :: i < pp && j < tp ==> data[(i, j)] == [i * tp + j]
    {
      data := map[];
      for rank := 0 to pp * tp
        invariant forall i: nat, j: nat :: (i, j) in data <==> i < pp && j < tp && i * tp + j < rank
        invariant forall i: nat, j: nat :: (i, j) in data ==> data[(i, j)] == [i * tp + j]
      {
        QuotientBound(rank, pp, tp);
        forall i: nat, j: nat | i < pp && j < tp ensures i * tp + j == rank <==> (i, j) == (rank / tp, rank % tp) {
          if i * tp + j == rank { DivModUnique(rank, tp, i, j); }
        }
        data := data[(rank / tp, rank % tp) := [rank]];
      }
      forall i: nat, j: nat | i < pp && j < tp ensures (i, j) in data {
        IndexBound(i, pp, tp, j);
      }
    }

    /** Appends to a cell, creating it when missing. An index outside the grid fails and changes nothing. */
    method AddData(i: nat, j: nat, ranks: seq<nat>) returns (ok: bool)
      modifies this
      ensures ok <==> i < pp && j < tp
      ensures data ==
        if ok then old(data)[(i, j) := (if (i, j) in old(data) then old(data)[(i, j)] else []) + ranks] else old(data)
    {
      if i >= pp || j >= tp { return false; }
      if (i, j) !in data { data := data[(i, j) := []]; }
      data := data[(i, j) := data[(i, j)] + ranks];
      ok := true;
    }

    /** The joined cells of one or all rows and one or all columns. It fails exactly when an index is outside the
        grid or a cell is missing. */
    method GetData(i: Option<nat>, j: Option<nat>) returns (ranks: Option<seq<nat>>)
      ensures var p0, p1 := First(i), Last(i, pp);
        var t0, t1 := First(j), Last(j, tp);
        (ranks.Some? <==> p1 <= pp && t1 <= tp && HasCells(data, p0, p1, t0, t1)) &&
        (ranks.Some? ==> ranks.value == BlockOf(data, p0, p1, t0, t1))
    {
      if (i.Some? && i.value >= pp) || (j.Some? && j.value >= tp) { return None; }
      var p0, p1 := First(i), Last(i, pp);
      var t0, t1 := First(j), Last(j, tp);
      var result: seq<nat> := [];
      for a := p0 to p1
        invariant HasCells(data, p0, a, t0, t1) && result == BlockOf(data, p0, a, t0, t1)
      {
        for b := t0 to t1
          invariant forall c: nat :: t0 <= c < b ==> (a, c) in data
          invariant result == BlockOf(data, p0, a, t0, t1) + RowOf(data, a, t0, b)
        {
          if (a, b) !in data { return None; }
          result := result + data[(a, b)];
        }
      }
      ranks := Some(result);
    }
  }

  /** The range an index stands for: itself, or everything when there is none. */
  function First(index: Option<nat>): nat {
    if index.Some? then index.value else 0
  }

  function Last(index: Option<nat>, degree: nat): nat {
    if index.Some? then index.value + 1 else degree
  }

  // ---------------------------------------------------------------------------------------------
  // Closed forms
  // ---------------------------------------------------------------------------------------------

  /** Entry q of column j once the tensor dimension is contracted by b: row q/b of the old grid, and the
      (q % b)-th of the b old columns merged into column j. */
  function RankAt(oldTp: nat, b: nat, j: nat, q: nat): nat
    requires b > 0
  {
    (q / b) * oldTp + j * b + q % b
  }

  function ColumnRanks(oldTp: nat, b: nat, j: nat): nat -> nat
    requires b > 0
  {
    q => RankAt(oldTp, b, j, q)
  }

  /** The cell holds entries i*s .. i*s+s-1 of the column `ranks`. */
  ghost predicate CellForm(cell: seq<nat>, ranks: nat -> nat, s: nat, i: nat) {
    |cell| == s && forall k :: 0 <= k < s ==> cell[k] == ranks(i * s + k)
  }

  /** Cell (i, j) holds entries i*s .. i*s+s-1 of column j. */
  ghost predicate ClosedForm(data: Grid, pp: nat, tp: nat, oldTp: nat, b: nat, s: nat)
    requires b > 0
  {
    (forall i: nat, j: nat :: (i, j) in data <==> i < pp && j < tp) &&
    forall i: nat, j: nat :: i < pp && j < tp ==> CellForm(data[(i, j)], ColumnRanks(oldTp, b, j), s, i)
  }

  /** The contractions the source carries out. */
  predicate Acceptable(oldPp: nat, oldTp: nat, newPp: nat, newTp: nat) {
    1 <= newPp <= oldPp && 1 <= newTp <= oldTp && oldTp % newTp == 0 && (oldPp * (oldTp / newTp)) % newPp == 0
  }

  /** Row i of a freshly initialised grid lists its ranks in order. */
  lemma {:induction false} InitialRow(data: Grid, i: nat, tp: nat, n: nat)
    requires n <= tp && forall j: nat :: j < tp ==> (i, j) in data && data[(i, j)] == [i * tp + j]
    ensures |RowOf(data, i, 0, n)| == n && forall k :: 0 <= k < n ==> RowOf(data, i, 0, n)[k] == i * tp + k
  {
    if n > 0 { InitialRow(data, i, tp, n - 1); }
  }

  /** The parts of an initial row have the closed form with s == b. */
  lemma RowPartForm(row: seq<nat>, i: nat, oldTp: nat, b: nat, j: nat)
    requires b > 0 && j * b + b <= |row| && forall k :: 0 <= k < |row| ==> row[k] == i * oldTp + k
    ensures CellForm(Part(row, b, j), ColumnRanks(oldTp, b, j), b, i)
  {
    forall k | 0 <= k < b ensures Part(row, b, j)[k] == RankAt(oldTp, b, j, i * b + k) {
      DivModUnique(i * b + k, b, i, k);
    }
  }

  lemma ColumnGrows(data: Grid, j: nat, n: nat)
    requires n > 0 && HasCells(data, 0, n, j, j + 1)
    ensures BlockOf(data, 0, n, j, j + 1) == BlockOf(data, 0, n - 1, j, j + 1) + data[(n - 1, j)]
  {
    assert RowOf(data, n - 1, j, j) == [];
  }

  lemma AppendForm(before: seq<nat>, cell: seq<nat>, ranks: nat -> nat)
    requires forall q :: 0 <= q < |before| ==> before[q] == ranks(q)
    requires forall k :: 0 <= k < |cell| ==> cell[k] == ranks(|before| + k)
    ensures forall q :: 0 <= q < |before + cell| ==> (before + cell)[q] == ranks(q)
  {
    forall q | 0 <= q < |before + cell| ensures (before + cell)[q] == ranks(q) {
      if q >= |before| { assert cell[q - |before|] == ranks(|before| + (q - |before|)); }
    }
  }

  /** Joining the cells of a column gives the column back. */
  lemma {:induction false} ColumnForm(data: Grid, j: nat, b: nat, ranks: nat -> nat, n: nat)
    requires HasCells(data, 0, n, j, j + 1)
    requires forall i: nat :: i < n ==> CellForm(data[(i, j)], ranks, b, i)
    ensures var col := BlockOf(data, 0, n, j, j + 1);
      |col| == n * b && forall q :: 0 <= q < |col| ==> col[q] == ranks(q)
  {
    if n == 0 {
      assert BlockOf(data, 0, n, j, j + 1) == [];
    } else {
      hide BlockOf, CellForm;
      ColumnForm(data, j, b, ranks, n - 1);
      ColumnGrows(data, j, n);
      NextCellForm(BlockOf(data, 0, n - 1, j, j + 1), data[(n - 1, j)], ranks, b, n);
    }
  }

  lemma NextCellForm(before: seq<nat>, cell: seq<nat>, ranks: nat -> nat, b: nat, n: nat)
    requires n > 0 && |before| == (n - 1) * b && forall q :: 0 <= q < |before| ==> before[q] == ranks(q)
    requires CellForm(cell, ranks, b, n - 1)
    ensures |before + cell| == n * b && forall q :: 0 <= q < |before + cell| ==> (before + cell)[q] == ranks(q)
  {
    Distribute(n, 1, b);
    CellEntries(cell, ranks, b, n - 1, |before|);
    AppendForm(before, cell, ranks);
  }

  lemma CellEntries(cell: seq<nat>, ranks: nat -> nat, b: nat, i: nat, start: nat)
    requires CellForm(cell, ranks, b, i) && start == i * b
    ensures |cell| == b && forall k :: 0 <= k < b ==> cell[k] == ranks(start + k)
  {
  }

  lemma ColumnPartForm(col: seq<nat>, ranks: nat -> nat, s: nat, i: nat)
    requires i * s + s <= |col| && forall q :: 0 <= q < |col| ==> col[q] == ranks(q)
    ensures CellForm(Part(col, s, i), ranks, s, i)
  {
  }

  // ---------------------------------------------------------------------------------------------
  // The reshape functions
  // ---------------------------------------------------------------------------------------------

  /** One pass of the tensor loop: cuts the ranks of row i into the cells of the new row. */
  method SplitRow(new2d: Meg2dMap, i: nat, ranks: seq<nat>) returns (ok: bool)
    requires i < new2d.pp && forall j: nat :: (i, j) !in new2d.data
    modifies new2d
    ensures ok <==> new2d.tp > 0 && |ranks| > 0 && |ranks| % new2d.tp == 0
    ensures ok ==>
      var size := |ranks| / new2d.tp;
      new2d.data.Keys == old(new2d.data.Keys) + RowKeys(i, new2d.tp) &&
      (forall k :: k in old(new2d.data) ==> new2d.data[k] == old(new2d.data)[k]) &&
      forall j :: 0 <= j < new2d.tp ==> j * size + size <= |ranks| && new2d.data[(i, j)] == Part(ranks, size, j)
  {
    var split := PartitionData(ranks, new2d.tp);
    if split.None? { return false; }
    ghost var size := |ranks| / new2d.tp;
    for j := 0 to new2d.tp
      invariant new2d.data.Keys == old(new2d.data.Keys) + RowKeys(i, j)
      invariant forall k :: k in old(new2d.data) ==> new2d.data[k] == old(new2d.data)[k]
      invariant forall c :: 0 <= c < j ==> c * size + size <= |ranks| && new2d.data[(i, c)] == Part(ranks, size, c)
    {
      assert [] + split.value[j] == split.value[j];
      var added := new2d.AddData(i, j, split.value[j]);
    }
    ok := true;
  }

  ghost function RowKeys(i: nat, n: nat): set<(nat, nat)> {
    set j: nat | j < n :: (i, j)
  }

  ghost function ColumnKeys(j: nat, n: nat): set<(nat, nat)> {
    set i: nat | i < n :: (i, j)
  }

  lemma RowsGrow(before: Grid, after: Grid, i: nat, newTp: nat, ranks: seq<nat>, oldTp: nat)
    requires newTp > 0 && oldTp > 0 && oldTp % newTp == 0 && |ranks| == oldTp
    requires oldTp / newTp > 0 ==> i > 0 ==> ClosedForm(before, i, newTp, oldTp, oldTp / newTp, oldTp / newTp)
    requires i == 0 ==> before == map[]
    requires after.Keys == before.Keys + RowKeys(i, newTp) && forall k :: k in before ==> after[k] == before[k]
    requires forall k :: 0 <= k < |ranks| ==> ranks[k] == i * oldTp + k
    requires forall j :: 0 <= j < newTp ==>
      j * (oldTp / newTp) + oldTp / newTp <= |ranks| && after[(i, j)] == Part(ranks, oldTp / newTp, j)
    ensures oldTp / newTp > 0
    ensures ClosedForm(after, i + 1, newTp, oldTp, oldTp / newTp, oldTp / newTp)
    ensures forall a: nat, j: nat :: (a, j) in after ==> a <= i
  {
    var b := oldTp / newTp;
    ProductSign(b - 1, newTp);
    forall j: nat | j < newTp ensures CellForm(after[(i, j)], ColumnRanks(oldTp, b, j), b, i) {
      RowPartForm(ranks, i, oldTp, b, j);
    }
    forall a: nat, j: nat ensures (a, j) in after <==> a < i + 1 && j < newTp {
      assert (a, j) in RowKeys(i, newTp) <==> a == i && j < newTp;
    }
  }

  lemma WholeRow(data: Grid, i: nat, tp: nat)
    requires forall j: nat :: j < tp ==> (i, j) in data && data[(i, j)] == [i * tp + j]
    ensures var row := BlockOf(data, i, i + 1, 0, tp);
      |row| == tp && forall k :: 0 <= k < tp ==> row[k] == i * tp + k
  {
    assert BlockOf(data, i, i, 0, tp) == [];
    InitialRow(data, i, tp, tp);
  }

  /** The rows below i of the new grid have the closed form. */
  ghost predicate RowsDone(data: Grid, i: nat, newTp: nat, oldTp: nat) {
    (forall a: nat, j: nat :: (a, j) in data ==> a < i) && (i == 0 ==> data == map[]) &&
    (i > 0 ==> newTp > 0 && oldTp % newTp == 0 && oldTp / newTp > 0 &&
               ClosedForm(data, i, newTp, oldTp, oldTp / newTp, oldTp / newTp))
  }

  /** One turn of the tensor loop. */
  method ReshapeRow(old2d: Meg2dMap, new2d: Meg2dMap, i: nat) returns (ok: bool)
    requires old2d.Full() && old2d.tp >= 1 && i < old2d.pp && new2d != old2d && new2d.pp == old2d.pp
    requires forall a: nat, j: nat :: a < old2d.pp && j < old2d.tp ==> old2d.data[(a, j)] == [a * old2d.tp + j]
    requires RowsDone(new2d.data, i, new2d.tp, old2d.tp)
    modifies new2d
    ensures ok <==> new2d.tp > 0 && old2d.tp % new2d.tp == 0
    ensures ok ==> RowsDone(new2d.data, i + 1, new2d.tp, old2d.tp)
  {
    hide ClosedForm, BlockOf, RowOf, RowKeys, Part;
    var found := old2d.GetData(Some(i), None);
    var ranks := found.value;
    WholeRow(old2d.data, i, old2d.tp);
    ghost var before := new2d.data;
    ok := SplitRow(new2d, i, ranks);
    if ok { RowsGrow(before, new2d.data, i, new2d.tp, ranks, old2d.tp); }
  }

  /** `_reshape_tp_dimension` on a freshly initialised map. */
  method ReshapeTpDimension(old2d: Meg2dMap, newTp: nat) returns (r: Option<Meg2dMap>)
    requires old2d.Full() && old2d.pp >= 1 && old2d.tp >= 1
    requires forall i: nat, j: nat :: i < old2d.pp && j < old2d.tp ==> old2d.data[(i, j)] == [i * old2d.tp + j]
    ensures r.Some? <==> newTp > 0 && old2d.tp % newTp == 0
    ensures r.Some? ==>
      var b := old2d.tp / newTp;
      fresh(r.value) && r.value.pp == old2d.pp && r.value.tp == newTp && b > 0 &&
      ClosedForm(r.value.data, r.value.pp, r.value.tp, old2d.tp, b, b)
  {
    hide ClosedForm;
    var new2d := new Meg2dMap(old2d.pp, newTp);
    for i := 0 to old2d.pp
      invariant RowsDone(new2d.data, i, newTp, old2d.tp)
    {
      var ok := ReshapeRow(old2d, new2d, i);
      if !ok { return None; }
    }
    r := Some(new2d);
  }

  /** One pass of the pipeline loop: cuts the ranks of column j into the cells of the new column. */
  method SplitColumn(new2d: Meg2dMap, j: nat, ranks: seq<nat>) returns (ok: bool)
    requires j < new2d.tp && forall i: nat :: (i, j) !in new2d.data
    modifies new2d
    ensures ok <==> new2d.pp > 0 && |ranks| > 0 && |ranks| % new2d.pp == 0
    ensures ok ==>
      var size := |ranks| / new2d.pp;
      new2d.data.Keys == old(new2d.data.Keys) + ColumnKeys(j, new2d.pp) &&
      (forall k :: k in old(new2d.data) ==> new2d.data[k] == old(new2d.data)[k]) &&
      forall i :: 0 <= i < new2d.pp ==> i * size + size <= |ranks| && new2d.data[(i, j)] == Part(ranks, size, i)
  {
    var split := PartitionData(ranks, new2d.pp);
    if split.None? { return false; }
    ghost var size := |ranks| / new2d.pp;
    for i := 0 to new2d.pp
      invariant new2d.data.Keys == old(new2d.data.Keys) + ColumnKeys(j, i)
      invariant forall k :: k in old(new2d.data) ==> new2d.data[k] == old(new2d.data)[k]
      invariant forall a :: 0 <= a < i ==> a * size + size <= |ranks| && new2d.data[(a, j)] == Part(ranks, size, a)
    {
      assert [] + split.value[i] == split.value[i];
      var added := new2d.AddData(i, j, split.value[i]);
    }
    ok := true;
  }

  lemma ColumnsGrow(before: Grid, after: Grid, j: nat, newPp: nat, ranks: seq<nat>, oldTp: nat, b: nat)
    requires newPp > 0 && b > 0 && |ranks| % newPp == 0
    requires ClosedForm(before, newPp, j, oldTp, b, |ranks| / newPp)
    requires after.Keys == before.Keys + ColumnKeys(j, newPp) && forall k :: k in before ==> after[k] == before[k]
    requires forall q :: 0 <= q < |ranks| ==> ranks[q] == ColumnRanks(oldTp, b, j)(q)
    requires forall i :: 0 <= i < newPp ==>
      i * (|ranks| / newPp) + |ranks| / newPp <= |ranks| && after[(i, j)] == Part(ranks, |ranks| / newPp, i)
    ensures ClosedForm(after, newPp, j + 1, oldTp, b, |ranks| / newPp)
  {
    var s := |ranks| / newPp;
    forall i: nat | i < newPp ensures CellForm(after[(i, j)], ColumnRanks(oldTp, b, j), s, i) {
      ColumnPartForm(ranks, ColumnRanks(oldTp, b, j), s, i);
    }
    forall i: nat, c: nat ensures (i, c) in after <==> i < newPp && c < j + 1 {
      assert (i, c) in ColumnKeys(j, newPp) <==> i < newPp && c == j;
    }
  }

  /** `_reshape_pp_dimension` on the result of the tensor step. */
  method ReshapePpDimension(old2d: Meg2dMap, newPp: nat, ghost oldTp: nat, ghost b: nat) returns (r: Option<Meg2dMap>)
    requires old2d.pp >= 1 && old2d.tp >= 1 && b > 0
    requires ClosedForm(old2d.data, old2d.pp, old2d.tp, oldTp, b, b)
    ensures r.Some? <==> newPp > 0 && (old2d.pp * b) % newPp == 0
    ensures r.Some? ==>
      fresh(r.value) && r.value.pp == newPp && r.value.tp == old2d.tp &&
      ClosedForm(r.value.data, newPp, old2d.tp, oldTp, b, old2d.pp * b / newPp)
  {
    ProductSign(old2d.pp, b);
    var new2d := new Meg2dMap(newPp, old2d.tp);
    for j := 0 to old2d.tp
      invariant j > 0 ==> newPp > 0 && (old2d.pp * b) % newPp == 0
      invariant newPp > 0 ==> ClosedForm(new2d.data, newPp, j, oldTp, b, old2d.pp * b / newPp)
      invariant forall i: nat, c: nat :: (i, c) in new2d.data ==> c < j
    {
      var found := old2d.GetData(None, Some(j));
      var ranks := found.value;
      ColumnForm(old2d.data, j, b, ColumnRanks(oldTp, b, j), old2d.pp);
      ghost var before := new2d.data;
      var ok := SplitColumn(new2d, j, ranks);
      if !ok { return None; }
      ColumnsGrow(before, new2d.data, j, newPp, ranks, oldTp, b);
    }
    r := Some(new2d);
  }

  /** `reshape_meg_2d_parallel`: succeeds exactly for the acceptable contractions, with every cell in
      closed form. */
  method ReshapeMeg2dParallel(oldPp: nat, oldTp: nat, newPp: nat, newTp: nat) returns (r: Option<Meg2dMap>)
    requires oldPp >= 1 && oldTp >= 1
    ensures r.Some? <==> Acceptable(oldPp, oldTp, newPp, newTp)
    ensures r.Some? ==>
      var b := oldTp / newTp;
      fresh(r.value) && r.value.pp == newPp && r.value.tp == newTp && b > 0 &&
      ClosedForm(r.value.data, newPp, newTp, oldTp, b, oldPp * b / newPp)
  {
    if newPp > oldPp || newTp > oldTp { return None; }
    var old2d := new Meg2dMap(oldPp, oldTp);
    old2d.SimpleInit();
    var newTpMap := old2d;
    if oldTp != newTp {
      var step := ReshapeTpDimension(old2d, newTp);
      if step.None? { return None; }
      newTpMap := step.value;
    } else {
      InitialForm(old2d.data, oldPp, oldTp);
      DivModUnique(oldTp, newTp, 1, 0);
    }
    ghost var b := oldTp / newTp;
    assert ClosedForm(newTpMap.data, oldPp, newTp, oldTp, b, b);
    r := Some(newTpMap);
    if oldPp != newPp {
      r := ReshapePpDimension(newTpMap, newPp, oldTp, b);
    } else {
      DivModUnique(b * newPp, newPp, b, 0);
      assert oldPp * b == b * newPp;
    }
  }

  /** A freshly initialised grid is in closed form with b == s == 1. */
  lemma InitialForm(data: Grid, pp: nat, tp: nat)
    requires forall i: nat, j: nat :: (i, j) in data <==> i < pp && j < tp
    requires forall i: nat, j: nat :: i < pp && j < tp ==> data[(i, j)] == [i * tp + j]
    ensures ClosedForm(data, pp, tp, tp, 1, 1)
  {
    forall i: nat, j: nat | i < pp && j < tp ensures CellForm(data[(i, j)], ColumnRanks(tp, 1, j), 1, i) {
      DivModUnique(i, 1, i, 0);
      assert RankAt(tp, 1, j, i) == i * tp + j;
    }
  }

  // ---------------------------------------------------------------------------------------------
  // The closed form partitions the old ranks
  // ---------------------------------------------------------------------------------------------

  /** A place in the new grid: cell (i, j), entry k. */
  datatype Place = Place(i: nat, j: nat, k: nat)

  ghost predicate IsPlace(p: Place, newPp: nat, newTp: nat, s: nat) {
    p.i < newPp && p.j < newTp && p.k < s
  }

  function RankOf(p: Place, oldTp: nat, b: nat, s: nat): nat
    requires b > 0
  {
    RankAt(oldTp, b, p.j, p.i * s + p.k)
  }

  /** Where an old rank ends up. */
  function Locate(rank: nat, oldTp: nat, b: nat, s: nat): Place
    requires oldTp > 0 && b > 0 && s > 0
  {
    var row, col := rank / oldTp, rank % oldTp;
    ProductSign(row, b);
    var q := row * b + col % b;
    Place(q / s, col / b, q % s)
  }

  /** Dividing a multiple of a smaller positive number gives a positive quotient. */
  lemma ExactQuotient(a: nat, d: nat)
    requires d > 0 && a >= d && a % d == 0
    ensures a / d > 0 && d * (a / d) == a
  {
  }

  /** The arithmetic of an acceptable contraction. */
  lemma Contraction(oldPp: nat, oldTp: nat, newPp: nat, newTp: nat)
    requires Acceptable(oldPp, oldTp, newPp, newTp)
    ensures var b := oldTp / newTp; b > 0 && newTp * b == oldTp
    ensures var b := oldTp / newTp; var s := oldPp * b / newPp; s > 0 && newPp * s == oldPp * b
  {
    ExactQuotient(oldTp, newTp);
    var b := oldTp / newTp;
    assert oldPp * b >= newPp by { AtLeastFactor(oldPp, b, newPp); }
    ExactQuotient(oldPp * b, newPp);
  }

  lemma AtLeastFactor(a: nat, b: nat, c: nat)
    requires a > 0 && b > 0 && a >= c
    ensures a * b >= c
  {
    ProductSign(b - 1, a);
    Distribute(b, 1, a);
    MulCommute(a, b);
  }

  /** Every place holds an old rank, and `Locate` finds the place again: no rank occurs twice. */
  lemma PlaceToRank(p: Place, oldPp: nat, oldTp: nat, newPp: nat, newTp: nat)
    requires Acceptable(oldPp, oldTp, newPp, newTp)
    requires IsPlace(p, newPp, newTp, oldPp * (oldTp / newTp) / newPp)
    ensures var b := oldTp / newTp; var s := oldPp * b / newPp;
      b > 0 && s > 0 && RankOf(p, oldTp, b, s) < oldPp * oldTp && Locate(RankOf(p, oldTp, b, s), oldTp, b, s) == p
  {
    var b := oldTp / newTp;
    var s := oldPp * b / newPp;
    Contraction(oldPp, oldTp, newPp, newTp);
    var q := p.i * s + p.k;
    IndexBound(p.i, newPp, s, p.k);
    QuotientBound(q, oldPp, b);
    var row, c := q / b, q % b;
    var col := p.j * b + c;
    IndexBound(p.j, newTp, b, c);
    IndexBound(row, oldPp, oldTp, col);
    DivModUnique(RankOf(p, oldTp, b, s), oldTp, row, col);
    DivModUnique(col, b, p.j, c);
    DivModUnique(q, s, p.i, p.k);
  }

  /** Every old rank has a place. */
  lemma RankToPlace(rank: nat, oldPp: nat, oldTp: nat, newPp: nat, newTp: nat)
    requires Acceptable(oldPp, oldTp, newPp, newTp) && rank < oldPp * oldTp
    ensures var b := oldTp / newTp; var s := oldPp * b / newPp;
      b > 0 && s > 0 &&
      IsPlace(Locate(rank, oldTp, b, s), newPp, newTp, s) && RankOf(Locate(rank, oldTp, b, s), oldTp, b, s) == rank
  {
    var b := oldTp / newTp;
    var s := oldPp * b / newPp;
    Contraction(oldPp, oldTp, newPp, newTp);
    QuotientBound(rank, oldPp, oldTp);
    var row, col := rank / oldTp, rank % oldTp;
    QuotientBound(col, newTp, b);
    IndexBound(row, oldPp, b, col % b);
    var q := row * b + col % b;
    QuotientBound(q, newPp, s);
    DivModUnique(q, b, row, col % b);
  }

  /** Within a cell the ranks increase strictly. */
  lemma CellIncreases(i: nat, j: nat, k: nat, m: nat, oldPp: nat, oldTp: nat, newPp: nat, newTp: nat)
    requires Acceptable(oldPp, oldTp, newPp, newTp)
    requires i < newPp && j < newTp && k < m < oldPp * (oldTp / newTp) / newPp
    ensures var b := oldTp / newTp; var s := oldPp * b / newPp;
      b > 0 && RankOf(Place(i, j, k), oldTp, b, s) < RankOf(Place(i, j, m), oldTp, b, s)
  {
    var b := oldTp / newTp;
    var s := oldPp * b / newPp;
    Contraction(oldPp, oldTp, newPp, newTp);
    var q, r := i * s + k, i * s + m;
    IndexBound(i, newPp, s, k);
    IndexBound(i, newPp, s, m);
    QuotientBound(q, oldPp, b);
    QuotientBound(r, oldPp, b);
    IndexBound(j, newTp, b, q % b);
    Distribute(r / b, q / b, b);
    ProductSign(r / b - q / b, b);
    Distribute(r / b, q / b, oldTp);
    ProductSign(r / b - q / b, oldTp);
    ProductSign(r / b - q / b - 1, oldTp);
    Distribute(r / b - q / b, 1, oldTp);
  }
}
