/** Which steps of the CPU Adam optimizer may write a pinned buffer whose copy is still pending: the order in which the
    loops of csrc/adam/cpu_adam.cpp and csrc/includes/cpu_adam.h use the two buffers. */
module BufferUse {
  import opened Arithmetic
  import opened CpuAdam
  import opened DoubleBuffer
  import opened Wrappers

  /** The buffer to be written next, and which copies may be pending. */
  datatype Ring = Ring(second: bool, pending0: bool, pending1: bool)

  ghost predicate Blocked(r: Ring) {
    if r.second then r.pending1 else r.pending0
  }

  /** The other buffer's copy may be pending, the next one's is not. */
  ghost predicate HalfFree(r: Ring) {
    !Blocked(r) && (r.pending0 || r.pending1)
  }

  ghost predicate BothPending(r: Ring) {
    r.pending0 && r.pending1
  }

  /** The buffers take turns: the next one was used before the other one. */
  ghost predicate TakeTurns(r: Ring) {
    Blocked(r) ==> BothPending(r)
  }

  /** One tile: waits for the buffer's copy or not, writes the buffer, launches its copy and changes buffers. Nothing is
      returned when the buffer is written while its copy may be pending. */
  ghost function UseTile(r: Ring, wait: bool): Option<Ring> {
    if Blocked(r) && !wait then None
    else Some(if r.second then Ring(false, r.pending0, true) else Ring(true, true, r.pending1))
  }

  /** A tile loop from t. */
  ghost function UseTiles(r: Ring, t: nat, size: nat): Option<Ring>
    decreases size - t
  {
    if t >= size then Some(r)
    else
      match UseTile(r, t / TILE >= 2)
      case None => None
      case Some(q) => UseTiles(q, t + TILE, size)
  }

  /** The loops of a step: one vector loop for each span, and the scalar loop after the last one. */
  ghost function UseLoops(width: Option<nat>, size: nat, spans: seq<nat>, r: Ring): Option<Ring>
    requires (width.Some? ==> width.value > 0) && spans != [] && forall k :: 0 <= k < |spans| ==> spans[k] > 0
  {
    var n := Rounded(width, size, spans[0]);
    match UseTiles(r, 0, n)
    case None => None
    case Some(q) =>
      if n == size then Some(q)
      else if |spans| == 1 then UseTiles(q, n, size)
      else UseLoops(width, size - n, spans[1..], q)
  }

  /** From the third tile on a loop waits for the buffer it writes. */
  lemma {:induction false} WaitingTiles(r: Ring, t: nat, size: nat)
    requires t >= 2 * TILE && BothPending(r)
    ensures UseTiles(r, t, size).Some? && BothPending(UseTiles(r, t, size).value)
    decreases size - t
  {
    if t < size { WaitingTiles(UseTile(r, true).value, t + TILE, size); }
  }

  /** A loop on idle buffers is fine; afterwards a single tile leaves one buffer free, more tiles leave none. */
  lemma IdleTiles(r: Ring, t: nat, size: nat)
    requires !r.pending0 && !r.pending1 && t < size
    ensures UseTiles(r, t, size).Some?
    ensures if size - t <= TILE then HalfFree(UseTiles(r, t, size).value) else BothPending(UseTiles(r, t, size).value)
  {
    var q := UseTile(r, t / TILE >= 2).value;
    if t + TILE >= size {
      assert UseTiles(r, t, size) == UseTiles(q, t + TILE, size) == Some(q);
    } else {
      var p := UseTile(q, (t + TILE) / TILE >= 2).value;
      WaitingTiles(p, t + 2 * TILE, size);
    }
  }

  lemma HalfFreeTile(r: Ring, t: nat, size: nat)
    requires HalfFree(r) && t < size <= t + TILE
    ensures UseTiles(r, t, size).Some? && BothPending(UseTiles(r, t, size).value)
  {
    var q := UseTile(r, t / TILE >= 2).value;
    assert UseTiles(q, t + TILE, size) == Some(q);
  }

  lemma BlockedTile(r: Ring, t: nat, size: nat)
    requires BothPending(r) && t < size && t < TILE
    ensures UseTiles(r, t, size) == None
  {
  }

  ghost predicate Spans(spans: seq<nat>) {
    spans != [] && forall k :: 0 <= k < |spans| ==> spans[k] in {1, 4, 8}
  }

  ghost predicate Build(width: Option<nat>) {
    width.Some? ==> width.value == 8 || width.value == 16
  }

  /** How many loops may still run. */
  ghost predicate MayUse(r: Ring, loops: seq<nat>) {
    if BothPending(r) then loops == []
    else if HalfFree(r) then |loops| <= 1
    else Safe(loops)
  }

  /** What a vector loop leaves over is less than a block, and so less than a tile. */
  lemma LeftOver(width: Option<nat>, size: nat, span: nat)
    requires Build(width) && span in {1, 4, 8}
    ensures width.Some? ==> size - Rounded(width, size, span) < TILE
    ensures width.None? ==> Rounded(width, size, span) == 0
  {
  }

  lemma {:induction false} SomeLoop(width: Option<nat>, size: nat, spans: seq<nat>)
    requires Build(width) && forall k :: 0 <= k < |spans| ==> spans[k] in {1, 4, 8}
    ensures LoopLengths(width, size, spans) == [] <==> size == 0
    ensures forall n :: n in LoopLengths(width, size, spans) ==> n <= size
  {
    if spans != [] { SomeLoop(width, size - Rounded(width, size, spans[0]), spans[1..]); }
  }

  /** The streams' state admits the loops exactly when no buffer is written while its copy may be pending. */
  lemma {:induction false} UseIsSafe(width: Option<nat>, size: nat, spans: seq<nat>, r: Ring)
    requires Build(width) && Spans(spans) && TakeTurns(r)
    requires (r.pending0 || r.pending1) || (|spans| == 1 && width.Some?) ==> size <= TILE
    ensures UseLoops(width, size, spans, r).Some? <==> MayUse(r, LoopLengths(width, size, spans))
    decreases |spans|
  {
    hide UseTiles, MayUse, Rounded, LoopLengths;
    var n := Rounded(width, size, spans[0]);
    var rest := LoopLengths(width, size - n, spans[1..]);
    FirstLoop(width, size, spans);
    LeftOver(width, size, spans[0]);
    SomeLoop(width, size - n, spans[1..]);
    if n > 0 {
      LoopRuns(r, 0, n, rest);
    } else {
      NoTiles(r, 0);
      assert Lead(n) + rest == rest;
    }
    if UseTiles(r, 0, n).Some? {
      var q := UseTiles(r, 0, n).value;
      if n == size {
        NothingLeft(q);
      } else if |spans| == 1 {
        assert spans[1..] == [];
        ScalarLoop(width, size - n);
        ScalarRuns(q, n, size);
      } else {
        UseIsSafe(width, size - n, spans[1..], q);
      }
    }
  }

  lemma NoTiles(r: Ring, t: nat)
    ensures UseTiles(r, t, t) == Some(r)
  {
  }

  lemma NothingLeft(r: Ring)
    ensures MayUse(r, [])
  {
  }

  /** A loop that is not empty uses up one of the loops that may run. */
  lemma LoopRuns(r: Ring, t: nat, size: nat, rest: seq<nat>)
    requires TakeTurns(r) && t == 0 < size && (r.pending0 || r.pending1 ==> size <= TILE) &&
      (forall n :: n in rest ==> n <= TILE)
    ensures var after := UseTiles(r, t, size);
      (MayUse(r, [size] + rest) <==> after.Some? && MayUse(after.value, rest)) &&
      (after.Some? ==> TakeTurns(after.value))
  {
    hide UseTiles;
    assert rest != [] ==> ([size] + rest)[1] == rest[0] && rest[0] in rest;
    if BothPending(r) {
      BlockedTile(r, t, size);
    } else if HalfFree(r) {
      HalfFreeTile(r, t, size);
    } else {
      IdleTiles(r, t, size);
    }
  }

  lemma ScalarRuns(r: Ring, t: nat, size: nat)
    requires TakeTurns(r) && t < size && (r.pending0 || r.pending1 ==> size <= TILE)
    ensures UseTiles(r, t, size).Some? <==> MayUse(r, [size - t])
  {
    hide UseTiles;
    if BothPending(r) {
      BlockedTile(r, t, size);
    } else if HalfFree(r) {
      HalfFreeTile(r, t, size);
    } else {
      IdleTiles(r, t, size);
    }
  }

  /** A whole step that starts with no copy pending never writes a buffer whose copy may be pending exactly when it has
      at most one loop, or two loops of which the first has at most one tile. */
  lemma StepIsSafe(width: Option<nat>, size: nat, second: bool)
    requires Build(width)
    ensures var loops := LoopLengths(width, size, [8, 4, 1]);
      (UseLoops(width, size, [8, 4, 1], Ring(second, false, false)).Some? <==> Safe(loops)) &&
      (Safe(loops) <==> |loops| <= 1 || (|loops| == 2 && loops[0] <= TILE))
  {
    hide UseLoops, LoopLengths;
    UseIsSafe(width, size, [8, 4, 1], Ring(second, false, false));
    SecondIsShort(width, size);
  }

  lemma SecondIsShort(width: Option<nat>, size: nat)
    requires Build(width)
    ensures var loops := LoopLengths(width, size, [8, 4, 1]); |loops| >= 2 ==> loops[1] <= TILE
  {
    hide LoopLengths, Rounded;
    assert [8, 4, 1][1..] == [4, 1];
    FirstLoop(width, size, [8, 4, 1]);
    LeftOver(width, size, 8);
    var n := Rounded(width, size, 8);
    SomeLoop(width, size - n, [4, 1]);
    var loops, rest := LoopLengths(width, size, [8, 4, 1]), LoopLengths(width, size - n, [4, 1]);
    if |loops| >= 2 && width.Some? {
      assert loops[1] in rest;
    } else if width.None? {
      ScalarBuild(size);
    }
  }

  /** Without vector instructions there is the scalar loop only. */
  lemma ScalarBuild(size: nat)
    ensures LoopLengths(None, size, [8, 4, 1]) == Lead(size)
  {
    FirstLoop(None, size, [8, 4, 1]);
    assert [8, 4, 1][1..] == [4, 1] && [4, 1][1..] == [1] && [1][1..] == [];
    assert LoopLengths(None, size, [1]) == Lead(size);
    assert LoopLengths(None, size, [4, 1]) == Lead(size);
  }

  // ---------------------------------------------------------------------------------------------
  // A step that goes wrong
  // ---------------------------------------------------------------------------------------------

  /** With 16 lanes, 208 parameters run three loops of 128, 64 and 16. */
  lemma ThreeLoops()
    ensures LoopLengths(Some(16), 208, [8, 4, 1]) == [128, 64, 16]
    ensures UseLoops(Some(16), 208, [8, 4, 1], Ring(false, false, false)) == None
  {
    assert Rounded(Some(16), 208, 8) == 128 && Rounded(Some(16), 80, 4) == 64 && Rounded(Some(16), 16, 1) == 16;
    assert [8, 4, 1][1..] == [4, 1] && [4, 1][1..] == [1] && [1][1..] == [];
    FirstLoop(Some(16), 208, [8, 4, 1]);
    FirstLoop(Some(16), 80, [4, 1]);
    FirstLoop(Some(16), 16, [1]);
    StepIsSafe(Some(16), 208, false);
  }

  /** At that length the copies of the first two loops may both be untouched when the third loop writes the first
      buffer. Then element 0 of the device array is delivered as parameter 192. */
  lemma WrongDelivery(params: seq<real>, dev: seq<real>, first: seq<real>, second: seq<real>, convert: real -> real)
    requires |params| == |dev| == 208 && |first| == |second| == TILE
    requires first[..128] == params[..128] && second[..64] == params[128..192]
    ensures
      var overwritten := params[192..208] + first[16..];
      var due := Future(dev, first, second, Some(Whole(0, 128)), Some(Whole(128, 64)), convert);
      var delivered := Future(dev, overwritten, second, Some(Whole(0, 128)), Some(Whole(128, 64)), convert);
      due[0] == convert(params[0]) && delivered[0] == convert(params[192])
  {
    hide Below;
    var overwritten := params[192..208] + first[16..];
    var a, b := Some(Whole(0, 128)), Some(Whole(128, 64));
    assert 0 in Whole(0, 128).todo && Covers(a, 0) && !Covers(b, 0);
    assert first[0] == first[..128][0] == params[0] && overwritten[0] == params[192];
    assert Finished(dev, first, a, convert)[0] == convert(first[0]);
    assert Finished(dev, overwritten, a, convert)[0] == convert(overwritten[0]);
  }
}
