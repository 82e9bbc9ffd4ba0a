/** Contraction of a (pipeline, tensor, data) grid of checkpoint shards:
    deepspeed/checkpoint/reshape_3d_utils.py. */
module Reshape3d {
  import opened Arithmetic
  import opened Meg2dReshape
  import opened Sequences
  import opened Wrappers

  datatype Dimension = PP | TP | DP

  /** `model_3d_desc`: the three degrees of a layout. */
  datatype Desc = Desc(pp: nat, tp: nat, dp: nat)

  ghost predicate Positive(d: Desc) {
    d.pp >= 1 && d.tp >= 1 && d.dp >= 1
  }

  /** `can_reshape`: the dimensions that would have to expand, and whether there are none. */
  method CanReshape(src: Desc, tgt: Desc) returns (ok: bool, errors: seq<Dimension>)
    ensures ok <==> tgt.pp <= src.pp && tgt.tp <= src.tp && tgt.dp <= src.dp
    ensures PP in errors <==> tgt.pp > src.pp
    ensures TP in errors <==> tgt.tp > src.tp
    ensures DP in errors <==> tgt.dp > src.dp
    ensures ok <==> errors == []
  {
    errors := [];
    if tgt.pp > src.pp { errors := errors + [PP]; }
    if tgt.tp > src.tp { errors := errors + [TP]; }
    if tgt.dp > src.dp { errors := errors + [DP]; }
    ok := |errors| == 0;
  }

  // ---------------------------------------------------------------------------------------------
  // flatten_dp_dimension
  // ---------------------------------------------------------------------------------------------

  /** Every rank of the cell is followed by its replicas in the other data-parallel groups. */
  ghost predicate IsFlat(flat: seq<nat>, cell: seq<nat>, size2d: nat, dp: nat) {
    |flat| == |cell| * dp &&
    forall x, y ::
      0 <= x < |cell| && 0 <= y < dp ==>
        FlatIndex(x, y, dp) < |flat| && flat[FlatIndex(x, y, dp)] == cell[x] + y * size2d
  }

  function FlatIndex(x: nat, y: nat, dp: nat): nat { x * dp + y }

  /** The replicas of one rank. */
  method Replicas(rank: nat, size2d: nat, dp: nat) returns (ranks: seq<nat>)
    ensures |ranks| == dp && forall y :: 0 <= y < dp ==> ranks[y] == rank + y * size2d
  {
    ranks := [];
    for y := 0 to dp
      invariant |ranks| == y && forall z :: 0 <= z < y ==> ranks[z] == rank + z * size2d
    {
      ranks := ranks + [rank + y * size2d];
    }
  }

  lemma FlatGrows(flat: seq<nat>, cell: seq<nat>, more: seq<nat>, rank: nat, size2d: nat, dp: nat)
    requires IsFlat(flat, cell, size2d, dp)
    requires |more| == dp && forall y :: 0 <= y < dp ==> more[y] == rank + y * size2d
    ensures IsFlat(flat + more, cell + [rank], size2d, dp)
  {
    Distribute(|cell|, 1, dp);
    forall x, y | 0 <= x < |cell + [rank]| && 0 <= y < dp
      ensures FlatIndex(x, y, dp) < |flat + more| &&
        (flat + more)[FlatIndex(x, y, dp)] == (cell + [rank])[x] + y * size2d
    {
      if x < |cell| {
        assert FlatIndex(x, y, dp) < |flat|;
      }
    }
  }

  /** The loop over the ranks of one cell. */
  method FlattenCell(new2d: Meg2dMap, i: nat, j: nat, cell: seq<nat>, size2d: nat, dp: nat)
    requires i < new2d.pp && j < new2d.tp && (i, j) !in new2d.data && |cell| > 0
    modifies new2d
    ensures new2d.data.Keys == old(new2d.data.Keys) + {(i, j)}
    ensures forall k :: k in old(new2d.data) ==> new2d.data[k] == old(new2d.data)[k]
    ensures IsFlat(new2d.data[(i, j)], cell, size2d, dp)
  {
    ghost var flat: seq<nat> := [];
    for x := 0 to |cell|
      invariant IsFlat(flat, cell[..x], size2d, dp)
      invariant x == 0 ==> flat == [] && new2d.data == old(new2d.data)
      invariant x > 0 ==> new2d.data == old(new2d.data)[(i, j) := flat]
    {
      var ranks := Replicas(cell[x], size2d, dp);
      FlatGrows(flat, cell[..x], ranks, cell[x], size2d, dp);
      var added := new2d.AddData(i, j, ranks);
      assert cell[..x + 1] == cell[..x] + [cell[x]];
      assert [] + ranks == ranks;
      flat := flat + ranks;
    }
    assert cell[..|cell|] == cell;
  }

  ghost predicate FlatGrid(data: Grid, old2d: Grid, size2d: nat, dp: nat) {
    data.Keys <= old2d.Keys && forall k :: k in data ==> IsFlat(data[k], old2d[k], size2d, dp)
  }

  /** `flatten_dp_dimension`. */
  method FlattenDpDimension(map2d: Meg2dMap, size2d: nat, dp: nat) returns (r: Meg2dMap)
    requires map2d.Full() && forall k :: k in map2d.data ==> |map2d.data[k]| > 0
    ensures fresh(r) && r.pp == map2d.pp && r.tp == map2d.tp && r.Full()
    ensures FlatGrid(r.data, map2d.data, size2d, dp)
  {
    r := new Meg2dMap(map2d.pp, map2d.tp);
    for i := 0 to map2d.pp
      invariant forall a: nat, c: nat :: (a, c) in r.data <==> a < i && c < map2d.tp
      invariant FlatGrid(r.data, map2d.data, size2d, dp)
    {
      for j := 0 to map2d.tp
        invariant forall a: nat, c: nat :: (a, c) in r.data <==> (a < i && c < map2d.tp) || (a == i && c < j)
        invariant FlatGrid(r.data, map2d.data, size2d, dp)
      {
        var found := map2d.GetData(Some(i), Some(j));
        var cell := found.value;
        SingleCell(map2d.data, i, j);
        FlattenCell(r, i, j, cell, size2d, dp);
      }
    }
  }

  lemma SingleCell(data: Grid, i: nat, j: nat)
    requires (i, j) in data
    ensures BlockOf(data, i, i + 1, j, j + 1) == data[(i, j)]
  {
    assert RowOf(data, i, j, j) == [] && BlockOf(data, i, i, j, j + 1) == [];
    assert RowOf(data, i, j, j + 1) == data[(i, j)];
  }

  // ---------------------------------------------------------------------------------------------
  // unflatten_dp_dimension
  // ---------------------------------------------------------------------------------------------

  ghost function Grids(maps: seq<Meg2dMap>): (grids: seq<Grid>)
    reads maps
    ensures |grids| == |maps| && forall d :: 0 <= d < |maps| ==> grids[d] == maps[d].data
  {
    seq(|maps|, d requires 0 <= d < |maps| reads maps => maps[d].data)
  }

  /** Cell k of grid d is part d of the flat cell k. */
  ghost predicate IsShare(grids: seq<Grid>, flat: Grid, k: (nat, nat)) {
    |grids| > 0 && k in flat && |flat[k]| > 0 && |flat[k]| % |grids| == 0 &&
    forall d :: 0 <= d < |grids| ==>
      k in grids[d] && d * (|flat[k]| / |grids|) + |flat[k]| / |grids| <= |flat[k]| &&
      grids[d][k] == Part(flat[k], |flat[k]| / |grids|, d)
  }

  /** Deals one flat cell out to the maps. */
  method DealCell(maps: seq<Meg2dMap>, i: nat, j: nat, ranks: seq<nat>) returns (ok: bool)
    requires NoDup(maps) && forall d :: 0 <= d < |maps| ==> i < maps[d].pp && j < maps[d].tp && (i, j) !in maps[d].data
    modifies maps
    ensures ok <==> |maps| > 0 && |ranks| > 0 && |ranks| % |maps| == 0
    ensures ok ==>
      var size := |ranks| / |maps|;
      forall d :: 0 <= d < |maps| ==>
        d * size + size <= |ranks| && maps[d].data == old(maps[d].data)[(i, j) := Part(ranks, size, d)]
  {
    var split := PartitionData(ranks, |maps|);
    if split.None? { return false; }
    ghost var size := |ranks| / |maps|;
    for d := 0 to |maps|
      invariant forall e :: 0 <= e < d ==>
        e * size + size <= |ranks| && maps[e].data == old(maps[e].data)[(i, j) := Part(ranks, size, e)]
      invariant forall e :: d <= e < |maps| ==> maps[e].data == old(maps[e].data)
    {
      assert [] + split.value[d] == split.value[d];
      var added := maps[d].AddData(i, j, split.value[d]);
    }
    ok := true;
  }

  method NewMaps(pp: nat, tp: nat, dp: nat) returns (maps: seq<Meg2dMap>)
    ensures |maps| == dp && NoDup(maps) && fresh(maps)
    ensures forall m :: m in maps ==> m.pp == pp && m.tp == tp && m.data == map[]
  {
    maps := [];
    for d := 0 to dp
      invariant |maps| == d && NoDup(maps) && fresh(maps)
      invariant forall m :: m in maps ==> m.pp == pp && m.tp == tp && m.data == map[]
    {
      var m := new Meg2dMap(pp, tp);
      maps := maps + [m];
    }
  }

  ghost predicate Visited(k: (nat, nat), i: nat, j: nat, tp: nat) {
    (k.0 < i && k.1 < tp) || (k.0 == i && k.1 < j)
  }

  /** The grids hold the shares of exactly the visited cells. */
  ghost predicate Dealt(grids: seq<Grid>, flat: Grid, i: nat, j: nat, tp: nat) {
    (forall d :: 0 <= d < |grids| ==> forall k: (nat, nat) :: k in grids[d] <==> Visited(k, i, j, tp)) &&
    forall k: (nat, nat) :: Visited(k, i, j, tp) ==> IsShare(grids, flat, k)
  }

  lemma DealtGrows(before: seq<Grid>, after: seq<Grid>, flat: Grid, i: nat, j: nat, tp: nat)
    requires Dealt(before, flat, i, j, tp) && j < tp && |before| == |after| > 0
    requires (i, j) in flat && |flat[(i, j)]| > 0 && |flat[(i, j)]| % |after| == 0
    requires var size := |flat[(i, j)]| / |after|;
      forall d :: 0 <= d < |after| ==>
        d * size + size <= |flat[(i, j)]| && after[d] == before[d][(i, j) := Part(flat[(i, j)], size, d)]
    ensures Dealt(after, flat, i, j + 1, tp)
  {
    forall k: (nat, nat) | Visited(k, i, j + 1, tp) ensures IsShare(after, flat, k) {
      if k != (i, j) {
        assert Visited(k, i, j, tp) && IsShare(before, flat, k);
      }
    }
  }

  /** The next cell is in no grid yet. */
  lemma NotDealt(grids: seq<Grid>, flat: Grid, i: nat, j: nat, tp: nat)
    requires Dealt(grids, flat, i, j, tp)
    ensures forall d :: 0 <= d < |grids| ==> (i, j) !in grids[d]
  {
    forall d | 0 <= d < |grids| ensures (i, j) !in grids[d] {
      assert (i, j) in grids[d] <==> Visited((i, j), i, j, tp);
    }
  }

  lemma DealtRow(grids: seq<Grid>, flat: Grid, i: nat, tp: nat)
    requires Dealt(grids, flat, i, tp, tp)
    ensures Dealt(grids, flat, i + 1, 0, tp)
  {
    forall k: (nat, nat) ensures Visited(k, i + 1, 0, tp) == Visited(k, i, tp, tp) {}
  }

  /** `unflatten_dp_dimension`: fails exactly when the cells cannot be cut into `dp` equal parts. */
  method UnflattenDpDimension(map2d: Meg2dMap, dp: nat, ghost length: nat) returns (r: Option<seq<Meg2dMap>>)
    requires map2d.Full() && map2d.pp > 0 && map2d.tp > 0 && length > 0
    requires forall k :: k in map2d.data ==> |map2d.data[k]| == length
    ensures r.Some? <==> dp > 0 && length % dp == 0
    ensures r.Some? ==>
      |r.value| == dp && NoDup(r.value) && fresh(r.value) &&
      (forall m :: m in r.value ==> m.pp == map2d.pp && m.tp == map2d.tp) &&
      Dealt(Grids(r.value), map2d.data, map2d.pp, 0, map2d.tp)
  {
    var maps := NewMaps(map2d.pp, map2d.tp, dp);
    assert Dealt(Grids(maps), map2d.data, 0, 0, map2d.tp);
    for i := 0 to map2d.pp
      invariant i > 0 ==> dp > 0 && length % dp == 0
      invariant Dealt(Grids(maps), map2d.data, i, 0, map2d.tp)
    {
      var ok := DealRow(map2d, maps, i, length);
      if !ok { return None; }
    }
    r := Some(maps);
  }

  /** The loop over the cells of one row. */
  method DealRow(map2d: Meg2dMap, maps: seq<Meg2dMap>, i: nat, ghost length: nat) returns (ok: bool)
    requires map2d.Full() && i < map2d.pp && map2d.tp > 0 && length > 0 && map2d !in maps
    requires forall k :: k in map2d.data ==> |map2d.data[k]| == length
    requires NoDup(maps) && forall m :: m in maps ==> m.pp == map2d.pp && m.tp == map2d.tp
    requires Dealt(Grids(maps), map2d.data, i, 0, map2d.tp)
    modifies maps
    ensures ok <==> |maps| > 0 && length % |maps| == 0
    ensures ok ==> Dealt(Grids(maps), map2d.data, i + 1, 0, map2d.tp)
  {
    hide Dealt, IsShare;
    for j := 0 to map2d.tp
      invariant j > 0 ==> |maps| > 0 && length % |maps| == 0
      invariant Dealt(Grids(maps), map2d.data, i, j, map2d.tp)
    {
      var found := map2d.GetData(Some(i), Some(j));
      var flat := found.value;
      SingleCell(map2d.data, i, j);
      ghost var before := Grids(maps);
      NotDealt(before, map2d.data, i, j, map2d.tp);
      forall d | 0 <= d < |maps| ensures maps[d] in maps && (i, j) !in maps[d].data { assert (i, j) !in before[d]; }
      ok := DealCell(maps, i, j, flat);
      if !ok { return; }
      DealtGrows(before, Grids(maps), map2d.data, i, j, map2d.tp);
    }
    DealtRow(Grids(maps), map2d.data, i, map2d.tp);
    ok := true;
  }

  // ---------------------------------------------------------------------------------------------
  // Closed form of the three-dimensional reshape
  // ---------------------------------------------------------------------------------------------

  /** Tensor columns merged into one. */
  function TpFactor(src: Desc, tgt: Desc): nat
    requires tgt.tp > 0
  {
    src.tp / tgt.tp
  }

  /** Source ranks in a cell of the 2D reshape. */
  function CellSize(src: Desc, tgt: Desc): nat
    requires tgt.tp > 0 && tgt.pp > 0
  {
    src.pp * TpFactor(src, tgt) / tgt.pp
  }

  /** Shards in a cell of the 3D reshape. */
  function ShareSize(src: Desc, tgt: Desc): nat
    requires Positive(tgt)
  {
    CellSize(src, tgt) * src.dp / tgt.dp
  }

  /** The reshapes the source carries out. */
  ghost predicate Reshapable(src: Desc, tgt: Desc) {
    Acceptable(src.pp, src.tp, tgt.pp, tgt.tp) && 1 <= tgt.dp <= src.dp && (CellSize(src, tgt) * src.dp) % tgt.dp == 0
  }

  /** A place in the new layout: data-parallel group d, cell (i, j), entry k. */
  datatype Place3 = Place3(d: nat, i: nat, j: nat, k: nat)

  /** Entry e of the flat cell (i, j): replica e % dp of the (e / dp)-th rank of the 2D cell. */
  function FlatRank(src: Desc, b: nat, s: nat, i: nat, j: nat, e: nat): nat
    requires b > 0 && src.dp > 0
  {
    RankAt(src.tp, b, j, i * s + e / src.dp) + (e % src.dp) * (src.pp * src.tp)
  }

  function RankOf3(p: Place3, src: Desc, b: nat, s: nat, u: nat): nat
    requires b > 0 && src.dp > 0
  {
    FlatRank(src, b, s, p.i, p.j, p.d * u + p.k)
  }

  ghost predicate ShareForm(cell: seq<nat>, src: Desc, b: nat, s: nat, u: nat, d: nat, i: nat, j: nat)
    requires b > 0 && src.dp > 0
  {
    |cell| == u && forall k :: 0 <= k < u ==> cell[k] == RankOf3(Place3(d, i, j, k), src, b, s, u)
  }

  /** Every cell of every map in closed form, and no other cell. */
  ghost predicate Form3d(grids: seq<Grid>, src: Desc, tgt: Desc)
    requires Positive(src) && Reshapable(src, tgt) && TpFactor(src, tgt) > 0
  {
    |grids| == tgt.dp &&
    (forall d :: 0 <= d < tgt.dp ==> forall i: nat, j: nat :: (i, j) in grids[d] <==> i < tgt.pp && j < tgt.tp) &&
    forall d, i: nat, j: nat :: 0 <= d < tgt.dp && i < tgt.pp && j < tgt.tp ==>
      ShareForm(grids[d][(i, j)], src, TpFactor(src, tgt), CellSize(src, tgt), ShareSize(src, tgt), d, i, j)
  }

  lemma ShareHasForm(share: seq<nat>, flat: seq<nat>, cell: seq<nat>, src: Desc, b: nat, s: nat, u: nat,
                     d: nat, i: nat, j: nat)
    requires b > 0 && src.dp > 0 && CellForm(cell, ColumnRanks(src.tp, b, j), s, i)
    requires IsFlat(flat, cell, src.pp * src.tp, src.dp)
    requires d * u + u <= |flat| && share == Part(flat, u, d)
    ensures ShareForm(share, src, b, s, u, d, i, j)
  {
    forall k | 0 <= k < u ensures share[k] == RankOf3(Place3(d, i, j, k), src, b, s, u) {
      var e := d * u + k;
      assert share[k] == flat[e];
      QuotientBound(e, s, src.dp);
      assert FlatIndex(e / src.dp, e % src.dp, src.dp) == e;
    }
  }

  lemma GridsHaveForm(grids: seq<Grid>, flat: Grid, map2d: Grid, src: Desc, tgt: Desc)
    requires Positive(src) && Reshapable(src, tgt) && TpFactor(src, tgt) > 0
    requires ClosedForm(map2d, tgt.pp, tgt.tp, src.tp, TpFactor(src, tgt), CellSize(src, tgt))
    requires flat.Keys == map2d.Keys && FlatGrid(flat, map2d, src.pp * src.tp, src.dp)
    requires |grids| == tgt.dp && Dealt(grids, flat, tgt.pp, 0, tgt.tp)
    ensures Form3d(grids, src, tgt)
  {
    var b, s, u := TpFactor(src, tgt), CellSize(src, tgt), ShareSize(src, tgt);
    forall d, i: nat, j: nat | 0 <= d < tgt.dp && i < tgt.pp && j < tgt.tp
      ensures (i, j) in grids[d] && ShareForm(grids[d][(i, j)], src, b, s, u, d, i, j)
    {
      assert Visited((i, j), tgt.pp, 0, tgt.tp) && IsShare(grids, flat, (i, j));
      ShareHasForm(grids[d][(i, j)], flat[(i, j)], map2d[(i, j)], src, b, s, u, d, i, j);
    }
    forall d, i: nat, j: nat | 0 <= d < tgt.dp ensures (i, j) in grids[d] <==> i < tgt.pp && j < tgt.tp {
      assert Visited((i, j), tgt.pp, 0, tgt.tp) <==> i < tgt.pp && j < tgt.tp;
    }
  }

  /** `model_3d_desc.reshape`: succeeds exactly for the reshapable targets, with every cell in closed form. */
  method Reshape(src: Desc, tgt: Desc) returns (r: Option<seq<Meg2dMap>>)
    requires Positive(src)
    ensures r.Some? <==> Reshapable(src, tgt)
    ensures r.Some? ==>
      fresh(r.value) && |r.value| == tgt.dp && NoDup(r.value) &&
      (forall m :: m in r.value ==> m.pp == tgt.pp && m.tp == tgt.tp) &&
      TpFactor(src, tgt) > 0 && Form3d(Grids(r.value), src, tgt)
  {
    var ok, errors := CanReshape(src, tgt);
    if !ok { return None; }
    var tgt2d := ReshapeMeg2dParallel(src.pp, src.tp, tgt.pp, tgt.tp);
    if tgt2d.None? { return None; }
    Contraction(src.pp, src.tp, tgt.pp, tgt.tp);
    ghost var s := CellSize(src, tgt);
    ProductSign(s, src.dp);
    ClosedFormSizes(tgt2d.value.data, tgt.pp, tgt.tp, src.tp, TpFactor(src, tgt), s);
    var flat := FlattenDpDimension(tgt2d.value, src.pp * src.tp, src.dp);
    ghost var grid := tgt2d.value.data;
    SameKeys(flat.data, grid, tgt.pp, tgt.tp);
    CellsFlat(flat.data, grid, src, s);
    r := UnflattenDpDimension(flat, tgt.dp, s * src.dp);
    if r.Some? {
      GridsHaveForm(Grids(r.value), flat.data, grid, src, tgt);
    }
  }

  lemma ClosedFormSizes(data: Grid, pp: nat, tp: nat, oldTp: nat, b: nat, s: nat)
    requires b > 0 && ClosedForm(data, pp, tp, oldTp, b, s)
    ensures forall k :: k in data ==> |data[k]| == s
  {
    forall k | k in data ensures |data[k]| == s {
      assert k == (k.0, k.1) && CellForm(data[(k.0, k.1)], ColumnRanks(oldTp, b, k.1), s, k.0);
    }
  }

  lemma SameKeys(a: Grid, b: Grid, pp: nat, tp: nat)
    requires forall i: nat, j: nat :: (i, j) in a <==> i < pp && j < tp
    requires forall i: nat, j: nat :: (i, j) in b <==> i < pp && j < tp
    ensures a.Keys == b.Keys
  {
    forall k ensures k in a <==> k in b { assert k == (k.0, k.1); }
  }

  lemma CellsFlat(flat: Grid, map2d: Grid, src: Desc, s: nat)
    requires FlatGrid(flat, map2d, src.pp * src.tp, src.dp)
    requires forall k :: k in map2d ==> |map2d[k]| == s
    ensures forall k :: k in flat ==> |flat[k]| == s * src.dp
  {
  }

  // ---------------------------------------------------------------------------------------------
  // Conservation: the cells of the new maps partition the old shards
  // ---------------------------------------------------------------------------------------------

  ghost predicate IsPlace3(p: Place3, tgt: Desc, u: nat) {
    p.d < tgt.dp && p.i < tgt.pp && p.j < tgt.tp && p.k < u
  }

  /** The place of replica d of a rank placed at q: its position among the replicas of the cell, cut into shares. */
  function Regroup(q: Place, d: nat, dp: nat, u: nat): Place3
    requires u > 0 && dp > 0
  {
    ProductSign(q.k, dp);
    var e: nat := q.k * dp + d;
    Place3(e / u, q.i, q.j, e % u)
  }

  /** Where an old shard ends up. */
  function Locate3(shard: nat, src: Desc, b: nat, s: nat, u: nat): Place3
    requires Positive(src) && b > 0 && s > 0 && u > 0
  {
    ProductSign(src.pp, src.tp);
    var size2d: nat := src.pp * src.tp;
    Regroup(Locate(shard % size2d, src.tp, b, s), shard / size2d, src.dp, u)
  }

  lemma Contraction3(src: Desc, tgt: Desc)
    requires Positive(src) && Reshapable(src, tgt)
    ensures TpFactor(src, tgt) > 0 && CellSize(src, tgt) > 0 && ShareSize(src, tgt) > 0
    ensures tgt.dp * ShareSize(src, tgt) == CellSize(src, tgt) * src.dp
  {
    Contraction(src.pp, src.tp, tgt.pp, tgt.tp);
    var s, u := CellSize(src, tgt), ShareSize(src, tgt);
    assert s * src.dp >= src.dp by { Distribute(s, 1, src.dp); ProductSign(s - 1, src.dp); }
    ProductSign(u - 1, tgt.dp);
  }

  /** Every place holds an old shard, and `Locate3` finds the place again: no shard occurs twice. */
  lemma PlaceToShard(p: Place3, src: Desc, tgt: Desc)
    requires Positive(src) && Reshapable(src, tgt) && IsPlace3(p, tgt, ShareSize(src, tgt))
    ensures var b, s, u := TpFactor(src, tgt), CellSize(src, tgt), ShareSize(src, tgt);
      b > 0 && s > 0 && u > 0 &&
      RankOf3(p, src, b, s, u) < src.pp * src.tp * src.dp && Locate3(RankOf3(p, src, b, s, u), src, b, s, u) == p
  {
    var b, s, u := TpFactor(src, tgt), CellSize(src, tgt), ShareSize(src, tgt);
    Contraction3(src, tgt);
    var e := p.d * u + p.k;
    IndexBound(p.d, tgt.dp, u, p.k);
    QuotientBound(e, s, src.dp);
    var q := Place(p.i, p.j, e / src.dp);
    PlaceToRank(q, src.pp, src.tp, tgt.pp, tgt.tp);
    var rank, size2d := RankOf(q, src.tp, b, s), src.pp * src.tp;
    IndexBound(e % src.dp, src.dp, size2d, rank);
    DivModUnique(RankOf3(p, src, b, s, u), size2d, e % src.dp, rank);
    DivModUnique(e, u, p.d, p.k);
  }

  /** Every old shard has a place. */
  lemma ShardToPlace(shard: nat, src: Desc, tgt: Desc)
    requires Positive(src) && Reshapable(src, tgt) && shard < src.pp * src.tp * src.dp
    ensures var b, s, u := TpFactor(src, tgt), CellSize(src, tgt), ShareSize(src, tgt);
      b > 0 && s > 0 && u > 0 &&
      IsPlace3(Locate3(shard, src, b, s, u), tgt, u) && RankOf3(Locate3(shard, src, b, s, u), src, b, s, u) == shard
  {
    var b, s, u := TpFactor(src, tgt), CellSize(src, tgt), ShareSize(src, tgt);
    Contraction3(src, tgt);
    var size2d := src.pp * src.tp;
    ProductSign(src.pp, src.tp);
    QuotientBound(shard, src.dp, size2d);
    var y, rank := shard / size2d, shard % size2d;
    RankToPlace(rank, src.pp, src.tp, tgt.pp, tgt.tp);
    var q := Locate(rank, src.tp, b, s);
    IndexBound(q.k, s, src.dp, y);
    var e := q.k * src.dp + y;
    QuotientBound(e, tgt.dp, u);
    DivModUnique(e, src.dp, q.k, y);
  }

  /** A reshape to the same layout leaves shard d*pp*tp + p*tp + t alone in cell (d, p, t). */
  lemma IdentityReshape(grids: seq<Grid>, desc: Desc)
    requires Positive(desc) && Reshapable(desc, desc) && TpFactor(desc, desc) > 0 && Form3d(grids, desc, desc)
    ensures forall d, p: nat, t: nat :: 0 <= d < desc.dp && p < desc.pp && t < desc.tp ==>
      (p, t) in grids[d] && grids[d][(p, t)] == [d * (desc.pp * desc.tp) + p * desc.tp + t]
  {
    var b, s, u := TpFactor(desc, desc), CellSize(desc, desc), ShareSize(desc, desc);
    DivModUnique(desc.tp, desc.tp, 1, 0);
    DivModUnique(desc.pp, desc.pp, 1, 0);
    DivModUnique(desc.dp, desc.dp, 1, 0);
    assert b == 1 && s == 1 && u == 1;
    forall d, p: nat, t: nat | 0 <= d < desc.dp && p < desc.pp && t < desc.tp
      ensures (p, t) in grids[d] && grids[d][(p, t)] == [d * (desc.pp * desc.tp) + p * desc.tp + t]
    {
      var cell := grids[d][(p, t)];
      assert ShareForm(cell, desc, b, s, u, d, p, t);
      DivModUnique(d, desc.dp, 0, d);
      DivModUnique(p, 1, p, 0);
      assert cell[0] == RankOf3(Place3(d, p, t, 0), desc, 1, 1, 1);
    }
  }

  /** A layout can always be reshaped to itself. */
  lemma SelfReshapable(desc: Desc)
    requires Positive(desc)
    ensures Reshapable(desc, desc)
  {
    DivModUnique(desc.tp, desc.tp, 1, 0);
    DivModUnique(desc.pp, desc.pp, 1, 0);
    DivModUnique(desc.dp, desc.dp, 1, 0);
  }
}
