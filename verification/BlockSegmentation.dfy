/** Block segmentation for sparse attention: csrc/sparse_attention/utils.cpp.

    A layout is an H x M x N tensor whose nonzero entries are blocks. `SddSegment` numbers the
    nonzero blocks and then runs passes of width w, w/2, ..., 1; a pass carves w x w groups out of
    the layout it is scanning. The rows a pass emits are written to the bounded buffer `scratch`.
 */
module BlockSegmentation {
  import opened Arithmetic
  import opened Sequences

  /** A position of the layout: head, row, column. */
  datatype Cell = Cell(h: int, m: int, n: int)

  /** One emitted row of `scratch`: a position and the number of the block there. */
  datatype Row = Row(cell: Cell, id: int)

  /** One element of the returned list: a group width and the rows emitted by that pass. */
  datatype Segment = Segment(width: int, rows: seq<Row>)

  // ---------------------------------------------------------------------------------------------
  // The nonzero cells of a layout, in row-major order
  // ---------------------------------------------------------------------------------------------

  ghost function RowCells(layout: array3<int>, h: nat, m: nat, n: nat): seq<Cell>
    requires h < layout.Length0 && m < layout.Length1 && n <= layout.Length2
    reads layout
  {
    if n == 0 then []
    else RowCells(layout, h, m, n - 1) + if layout[h, m, n - 1] != 0 then [Cell(h, m, n - 1)] else []
  }

  ghost function HeadCells(layout: array3<int>, h: nat, m: nat): seq<Cell>
    requires h < layout.Length0 && m <= layout.Length1
    reads layout
  {
    if m == 0 then [] else HeadCells(layout, h, m - 1) + RowCells(layout, h, m - 1, layout.Length2)
  }

  ghost function NonzeroUpTo(layout: array3<int>, h: nat): seq<Cell>
    requires h <= layout.Length0
    reads layout
  {
    if h == 0 then [] else NonzeroUpTo(layout, h - 1) + HeadCells(layout, h - 1, layout.Length1)
  }

  /** All nonzero cells of the layout, row-major. */
  ghost function Nonzero(layout: array3<int>): seq<Cell>
    reads layout
  {
    NonzeroUpTo(layout, layout.Length0)
  }

  /** The rows the numbering promises: the k-th nonzero cell in row-major order carries number k. */
  ghost function Numbered(cells: seq<Cell>): (rows: seq<Row>)
  {
    seq(|cells|, k requires 0 <= k < |cells| => Row(cells[k], k))
  }

  ghost predicate Before(a: Cell, b: Cell) {
    a.h < b.h || (a.h == b.h && (a.m < b.m || (a.m == b.m && a.n < b.n)))
  }

  ghost predicate Sorted(s: seq<Cell>) {
    forall i, j :: 0 <= i < j < |s| ==> Before(s[i], s[j])
  }

  ghost predicate InLayout(layout: array3<int>, c: Cell) {
    0 <= c.h < layout.Length0 && 0 <= c.m < layout.Length1 && 0 <= c.n < layout.Length2
  }

  lemma {:induction false} RowCellsSpec(layout: array3<int>, h: nat, m: nat, n: nat)
    requires h < layout.Length0 && m < layout.Length1 && n <= layout.Length2
    ensures Sorted(RowCells(layout, h, m, n))
    ensures forall c :: c in RowCells(layout, h, m, n) <==>
                        c.h == h && c.m == m && 0 <= c.n < n && layout[h, m, c.n] != 0
  {
    if n > 0 {
      RowCellsSpec(layout, h, m, n - 1);
      var prefix := RowCells(layout, h, m, n - 1);
      forall i | 0 <= i < |prefix| ensures Before(prefix[i], Cell(h, m, n - 1)) {
        assert prefix[i] in prefix;
      }
    }
  }

  lemma {:induction false} HeadCellsSpec(layout: array3<int>, h: nat, m: nat)
    requires h < layout.Length0 && m <= layout.Length1
    ensures Sorted(HeadCells(layout, h, m))
    ensures forall c :: c in HeadCells(layout, h, m) <==>
                        c.h == h && 0 <= c.m < m && 0 <= c.n < layout.Length2 && layout[h, c.m, c.n] != 0
  {
    if m > 0 {
      HeadCellsSpec(layout, h, m - 1);
      RowCellsSpec(layout, h, m - 1, layout.Length2);
      SortedConcat(HeadCells(layout, h, m - 1), RowCells(layout, h, m - 1, layout.Length2));
    }
  }

  lemma {:induction false} NonzeroUpToSpec(layout: array3<int>, h: nat)
    requires h <= layout.Length0
    ensures Sorted(NonzeroUpTo(layout, h))
    ensures forall c :: c in NonzeroUpTo(layout, h) <==>
                        InLayout(layout, c) && c.h < h && layout[c.h, c.m, c.n] != 0
  {
    if h > 0 {
      NonzeroUpToSpec(layout, h - 1);
      HeadCellsSpec(layout, h - 1, layout.Length1);
      SortedConcat(NonzeroUpTo(layout, h - 1), HeadCells(layout, h - 1, layout.Length1));
    }
  }

  lemma SortedConcat(a: seq<Cell>, b: seq<Cell>)
    requires Sorted(a) && Sorted(b)
    requires forall x, y :: x in a && y in b ==> Before(x, y)
    ensures Sorted(a + b)
  {
    forall i, j | 0 <= i < j < |a + b| ensures Before((a + b)[i], (a + b)[j]) {
      if i < |a| <= j {
        assert a[i] in a && b[j - |a|] in b;
      }
    }
  }

  // ---------------------------------------------------------------------------------------------
  // The size of scratch: the sum of the layout's entries
  // ---------------------------------------------------------------------------------------------

  ghost function RowSum(layout: array3<int>, h: nat, m: nat, n: nat): int
    requires h < layout.Length0 && m < layout.Length1 && n <= layout.Length2
    reads layout
  {
    if n == 0 then 0 else RowSum(layout, h, m, n - 1) + layout[h, m, n - 1]
  }

  ghost function HeadSum(layout: array3<int>, h: nat, m: nat): int
    requires h < layout.Length0 && m <= layout.Length1
    reads layout
  {
    if m == 0 then 0 else HeadSum(layout, h, m - 1) + RowSum(layout, h, m - 1, layout.Length2)
  }

  ghost function SumUpTo(layout: array3<int>, h: nat): int
    requires h <= layout.Length0
    reads layout
  {
    if h == 0 then 0 else SumUpTo(layout, h - 1) + HeadSum(layout, h - 1, layout.Length1)
  }

  ghost predicate NonNegative(layout: array3<int>)
    reads layout
  {
    forall h, m, n :: 0 <= h < layout.Length0 && 0 <= m < layout.Length1 && 0 <= n < layout.Length2
                      ==> layout[h, m, n] >= 0
  }

  lemma {:induction false} RowSumBound(layout: array3<int>, h: nat, m: nat, n: nat)
    requires NonNegative(layout)
    requires h < layout.Length0 && m < layout.Length1 && n <= layout.Length2
    ensures |RowCells(layout, h, m, n)| <= RowSum(layout, h, m, n)
    ensures |RowCells(layout, h, m, n)| == RowSum(layout, h, m, n) <==> forall c :: 0 <= c < n ==> layout[h, m, c] <= 1
  {
    if n > 0 { RowSumBound(layout, h, m, n - 1); }
  }

  lemma {:induction false} HeadSumBound(layout: array3<int>, h: nat, m: nat)
    requires NonNegative(layout)
    requires h < layout.Length0 && m <= layout.Length1
    ensures |HeadCells(layout, h, m)| <= HeadSum(layout, h, m)
    ensures |HeadCells(layout, h, m)| == HeadSum(layout, h, m) <==>
      forall b, c :: 0 <= b < m && 0 <= c < layout.Length2 ==> layout[h, b, c] <= 1
  {
    if m > 0 {
      HeadSumBound(layout, h, m - 1);
      RowSumBound(layout, h, m - 1, layout.Length2);
    }
  }

  /** The sum of a nonnegative layout is at least its number of nonzero cells, and equal to it exactly when no entry
      exceeds 1. */
  lemma {:induction false} SumBound(layout: array3<int>, h: nat)
    requires NonNegative(layout)
    requires h <= layout.Length0
    ensures |NonzeroUpTo(layout, h)| <= SumUpTo(layout, h)
    ensures |NonzeroUpTo(layout, h)| == SumUpTo(layout, h) <==>
      forall a, b, c :: 0 <= a < h && 0 <= b < layout.Length1 && 0 <= c < layout.Length2 ==> layout[a, b, c] <= 1
  {
    if h > 0 {
      SumBound(layout, h - 1);
      HeadSumBound(layout, h - 1, layout.Length1);
    }
  }

  /** The tensor sum that sizes `scratch`. */
  method SumLayout(layout: array3<int>) returns (total: int)
    ensures total == SumUpTo(layout, layout.Length0)
  {
    total := 0;
    for h := 0 to layout.Length0
      invariant total == SumUpTo(layout, h)
    {
      for m := 0 to layout.Length1
        invariant total == SumUpTo(layout, h) + HeadSum(layout, h, m)
      {
        for n := 0 to layout.Length2
          invariant total == SumUpTo(layout, h) + HeadSum(layout, h, m) + RowSum(layout, h, m, n)
        {
          total := total + layout[h, m, n];
        }
      }
    }
  }

  // ---------------------------------------------------------------------------------------------
  // Numbering the nonzero blocks
  // ---------------------------------------------------------------------------------------------

  /** idx carries, at the k-th cell of `cells`, the number k, and 0 elsewhere. */
  ghost predicate Numbers(idx: array3<int>, cells: seq<Cell>)
    reads idx
  {
    (forall k :: 0 <= k < |cells| ==> InLayout(idx, cells[k]) && idx[cells[k].h, cells[k].m, cells[k].n] == k) &&
    forall c :: InLayout(idx, c) && c !in cells ==> idx[c.h, c.m, c.n] == 0
  }

  ghost predicate SameShape(a: array3<int>, b: array3<int>) {
    a.Length0 == b.Length0 && a.Length1 == b.Length1 && a.Length2 == b.Length2
  }

  /** The numbering loop: the k-th nonzero cell in row-major order receives k. */
  method NumberBlocks(layout: array3<int>) returns (idx: array3<int>)
    ensures fresh(idx) && SameShape(idx, layout)
    ensures Numbers(idx, Nonzero(layout))
  {
    idx := new int[layout.Length0, layout.Length1, layout.Length2];
    ClearCells(idx);
    var current := 0;
    for h := 0 to layout.Length0
      invariant current == |NonzeroUpTo(layout, h)|
      invariant Numbers(idx, NonzeroUpTo(layout, h))
    {
      current := NumberHead(layout, idx, h, current);
    }
  }

  method ClearCells(t: array3<int>)
    modifies t
    ensures forall h, m, n :: 0 <= h < t.Length0 && 0 <= m < t.Length1 && 0 <= n < t.Length2 ==> t[h, m, n] == 0
  {
    forall h, m, n | 0 <= h < t.Length0 && 0 <= m < t.Length1 && 0 <= n < t.Length2 {
      t[h, m, n] := 0;
    }
  }

  method NumberHead(layout: array3<int>, idx: array3<int>, h: nat, start: int) returns (current: int)
    requires idx != layout && SameShape(idx, layout) && h < layout.Length0
    requires Numbers(idx, NonzeroUpTo(layout, h)) && start == |NonzeroUpTo(layout, h)|
    modifies idx
    ensures Numbers(idx, NonzeroUpTo(layout, h + 1)) && current == |NonzeroUpTo(layout, h + 1)|
  {
    hide RowCells, Numbers;
    current := start;
    ghost var before := NonzeroUpTo(layout, h);
    ghost var cells := before;
    for m := 0 to layout.Length1
      invariant cells == before + HeadCells(layout, h, m) && current == |cells|
      invariant Numbers(idx, cells)
    {
      RowIsNew(layout, h, m);
      current := NumberRow(layout, idx, h, m, current, cells);
      ghost var row := RowCells(layout, h, m, layout.Length2);
      assert before + HeadCells(layout, h, m) + row == before + (HeadCells(layout, h, m) + row);
      cells := cells + row;
    }
  }

  /** The next number goes to a new cell. */
  method NumberCell(idx: array3<int>, c: Cell, current: int, ghost cells: seq<Cell>)
    requires InLayout(idx, c) && Numbers(idx, cells) && current == |cells| && c !in cells
    modifies idx
    ensures Numbers(idx, cells + [c])
  {
    assert forall k :: 0 <= k < |cells| ==> cells[k] in cells;
    idx[c.h, c.m, c.n] := current;
  }

  /** The innermost numbering loop. */
  method NumberRow(layout: array3<int>, idx: array3<int>, h: nat, m: nat, start: int, ghost before: seq<Cell>)
    returns (current: int)
    requires idx != layout && SameShape(idx, layout)
    requires h < layout.Length0 && m < layout.Length1
    requires Numbers(idx, before) && start == |before|
    requires forall c :: c in before ==> c.h != h || c.m != m
    modifies idx
    ensures Numbers(idx, before + RowCells(layout, h, m, layout.Length2))
    ensures current == |before + RowCells(layout, h, m, layout.Length2)|
  {
    hide Numbers;
    current := start;
    ghost var row: seq<Cell> := [];
    assert before + row == before;
    for n := 0 to layout.Length2
      invariant row == RowCells(layout, h, m, n)
      invariant current == |before| + |row|
      invariant forall c :: c in row ==> c.h == h && c.m == m && 0 <= c.n < n
      invariant Numbers(idx, before + row)
    {
      if layout[h, m, n] != 0 {
        NumberCell(idx, Cell(h, m, n), current, before + row);
        assert before + row + [Cell(h, m, n)] == before + (row + [Cell(h, m, n)]);
        row := row + [Cell(h, m, n)];
        current := current + 1;
      }
    }
  }

  lemma RowIsNew(layout: array3<int>, h: nat, m: nat)
    requires h < layout.Length0 && m < layout.Length1
    ensures forall c :: c in NonzeroUpTo(layout, h) + HeadCells(layout, h, m) ==> c.h != h || c.m != m
  {
    NonzeroUpToSpec(layout, h);
    HeadCellsSpec(layout, h, m);
  }

  // ---------------------------------------------------------------------------------------------
  // Carving one group
  // ---------------------------------------------------------------------------------------------

  /** The cells of row m at the columns ns; an unset (negative) row or column contributes nothing. */
  ghost function CarvedRow(h: int, m: int, ns: seq<int>): seq<Cell> {
    if ns == [] then []
    else
      CarvedRow(h, m, ns[..|ns| - 1]) +
      if m >= 0 && ns[|ns| - 1] >= 0 then [Cell(h, m, ns[|ns| - 1])] else []
  }

  /** The product of the rows ms and the columns ns, row by row. */
  ghost function Carved(h: int, ms: seq<int>, ns: seq<int>): seq<Cell> {
    if ms == [] then [] else Carved(h, ms[..|ms| - 1], ns) + CarvedRow(h, ms[|ms| - 1], ns)
  }

  lemma {:induction false} CarvedRowMembers(h: int, m: int, ns: seq<int>)
    ensures forall c :: c in CarvedRow(h, m, ns) <==> c.h == h && c.m == m && m >= 0 && c.n >= 0 && c.n in ns
  {
    if ns != [] {
      CarvedRowMembers(h, m, ns[..|ns| - 1]);
      assert ns == ns[..|ns| - 1] + [ns[|ns| - 1]];
    }
  }

  lemma {:induction false} CarvedMembers(h: int, ms: seq<int>, ns: seq<int>)
    ensures forall c :: c in Carved(h, ms, ns) <==> c.h == h && c.m >= 0 && c.n >= 0 && c.m in ms && c.n in ns
  {
    if ms != [] {
      CarvedMembers(h, ms[..|ms| - 1], ns);
      CarvedRowMembers(h, ms[|ms| - 1], ns);
      assert ms == ms[..|ms| - 1] + [ms[|ms| - 1]];
    }
  }

  /** Rows 0..|cells|-1 of scratch[h], as far as the buffer reaches, hold `cells` with their numbers. */
  ghost predicate Stored(scratch: array3<int>, idx: array3<int>, h: nat, cells: seq<Cell>)
    reads scratch, idx
  {
    h < scratch.Length0 && scratch.Length2 == 4 &&
    forall r :: 0 <= r < |cells| && r < scratch.Length1 ==>
      InLayout(idx, cells[r]) &&
      scratch[h, r, 0] == cells[r].h && scratch[h, r, 1] == cells[r].m && scratch[h, r, 2] == cells[r].n &&
      scratch[h, r, 3] == idx[cells[r].h, cells[r].m, cells[r].n]
  }

  ghost function Column(top: array2<int>, n: nat): (col: seq<int>)
    requires n < top.Length1
    reads top
  {
    seq(top.Length0, k requires 0 <= k < top.Length0 reads top => top[k, n])
  }

  /** `t` lost exactly the given cells since the old state. */
  twostate predicate Erased(t: array3<int>, cells: seq<Cell>)
    reads t
  {
    forall h, m, n :: 0 <= h < t.Length0 && 0 <= m < t.Length1 && 0 <= n < t.Length2 ==>
      t[h, m, n] == if Cell(h, m, n) in cells then 0 else old(t[h, m, n])
  }

  twostate predicate OtherHeadsKept(t: array3<int>, h: int)
    reads t
  {
    forall a, b, c :: 0 <= a < t.Length0 && a != h && 0 <= b < t.Length1 && 0 <= c < t.Length2 ==>
      t[a, b, c] == old(t[a, b, c])
  }

  /** The four tensors of `segment_blocks` are distinct and of matching shape. */
  ghost predicate Tensors(layout: array3<int>, tmp: array3<int>, idx: array3<int>, scratch: array3<int>) {
    layout != tmp && layout != idx && tmp != idx && scratch != layout && scratch != tmp && scratch != idx &&
    SameShape(tmp, layout) && SameShape(idx, layout) &&
    scratch.Length0 == layout.Length0 && scratch.Length2 == 4
  }

  /** Emits one cell: erases it, and stores it in scratch as long as there is room. */
  method Emit(layout: array3<int>, tmp: array3<int>, idx: array3<int>, scratch: array3<int>,
              c: Cell, current: nat, ghost emitted: seq<Cell>)
    requires Tensors(layout, tmp, idx, scratch)
    requires InLayout(layout, c)
    requires current == |emitted| && Stored(scratch, idx, c.h, emitted)
    modifies layout, tmp, scratch
    ensures Erased(layout, [c]) && Erased(tmp, [c]) && OtherHeadsKept(scratch, c.h)
    ensures Stored(scratch, idx, c.h, emitted + [c])
  {
    layout[c.h, c.m, c.n] := 0;
    tmp[c.h, c.m, c.n] := 0;
    if current < scratch.Length1 {
      scratch[c.h, current, 0] := c.h;
      scratch[c.h, current, 1] := c.m;
      scratch[c.h, current, 2] := c.n;
      scratch[c.h, current, 3] := idx[c.h, c.m, c.n];
    }
  }

  lemma CarvedNothing(h: int, ms: seq<int>, ns: seq<int>)
    requires ms == []
    ensures Carved(h, ms, ns) == []
  {
  }

  lemma CarvedStep(h: int, ms: seq<int>, ns: seq<int>, k: nat)
    requires k < |ms|
    ensures Carved(h, ms[..k + 1], ns) == Carved(h, ms[..k], ns) + CarvedRow(h, ms[k], ns)
  {
    assert ms[..k + 1][..k] == ms[..k];
  }

  /** The retained-block loops: erases and emits the product of the two ring buffers. */
  method Carve(layout: array3<int>, tmp: array3<int>, idx: array3<int>, scratch: array3<int>, h: nat,
               top: array2<int>, left: array<int>, n: nat, start: nat, ghost before: seq<Cell>)
    returns (current: nat)
    requires Tensors(layout, tmp, idx, scratch)
    requires h < layout.Length0
    requires top.Length0 == left.Length && n < top.Length1
    requires forall k :: 0 <= k < left.Length ==> top[k, n] < layout.Length1 && left[k] < layout.Length2
    requires start == |before| && Stored(scratch, idx, h, before)
    modifies layout, tmp, scratch
    ensures var cells := Carved(h, Column(top, n), left[..]);
      current == |before + cells| && Stored(scratch, idx, h, before + cells) &&
      Erased(layout, cells) && Erased(tmp, cells)
    ensures OtherHeadsKept(scratch, h)
  {
    hide Stored, Carved, CarvedRow;
    current := start;
    ghost var ms, ns := Column(top, n), left[..];
    ghost var cells: seq<Cell> := [];
    assert before + cells == before;
    CarvedNothing(h, ms[..0], ns);
    for km := 0 to left.Length
      invariant cells == Carved(h, ms[..km], ns)
      invariant current == |before + cells| && Stored(scratch, idx, h, before + cells)
      invariant Erased(layout, cells) && Erased(tmp, cells)
      invariant OtherHeadsKept(scratch, h)
    {
      current := CarveRow(layout, tmp, idx, scratch, h, top[km, n], left, current, before + cells);
      ghost var row := CarvedRow(h, top[km, n], ns);
      CarvedStep(h, ms, ns, km);
      assert before + cells + row == before + (cells + row);
      cells := cells + row;
    }
    assert ms[..left.Length] == ms;
  }

  method CarveRow(layout: array3<int>, tmp: array3<int>, idx: array3<int>, scratch: array3<int>, h: nat,
                  mm: int, left: array<int>, start: nat, ghost before: seq<Cell>)
    returns (current: nat)
    requires Tensors(layout, tmp, idx, scratch)
    requires h < layout.Length0
    requires mm < layout.Length1 && forall k :: 0 <= k < left.Length ==> left[k] < layout.Length2
    requires start == |before| && Stored(scratch, idx, h, before)
    modifies layout, tmp, scratch
    ensures var cells := CarvedRow(h, mm, left[..]);
      current == |before + cells| && Stored(scratch, idx, h, before + cells) &&
      Erased(layout, cells) && Erased(tmp, cells)
    ensures OtherHeadsKept(scratch, h)
  {
    current := start;
    ghost var cells: seq<Cell> := [];
    assert before + cells == before;
    for kn := 0 to left.Length
      invariant cells == CarvedRow(h, mm, left[..kn])
      invariant current == |before + cells| && Stored(scratch, idx, h, before + cells)
      invariant Erased(layout, cells) && Erased(tmp, cells)
      invariant OtherHeadsKept(scratch, h)
    {
      var nn := left[kn];
      assert left[..kn + 1][..kn] == left[..kn];
      if mm >= 0 && nn >= 0 {
        var c := Cell(h, mm, nn);
        Emit(layout, tmp, idx, scratch, c, current, before + cells);
        assert before + cells + [c] == before + (cells + [c]);
        cells := cells + [c];
        current := current + 1;
      }
    }
    assert left[..left.Length] == left[..];
  }

  // ---------------------------------------------------------------------------------------------
  // One pass over one head
  // ---------------------------------------------------------------------------------------------

  /** The ring buffer `ii_left` drops its oldest column and takes n. */
  method ShiftLeft(left: array<int>, n: int)
    requires left.Length > 0
    modifies left
    ensures left[..] == old(left[1..]) + [n]
  {
    for k := 0 to left.Length - 1
      invariant forall j :: 0 <= j < left.Length ==> left[j] == old(left[if j < k then j + 1 else j])
    {
      left[k] := left[k + 1];
    }
    left[left.Length - 1] := n;
  }

  /** The ring buffer `ii_top` of column n drops its oldest row and takes m. */
  method ShiftTop(top: array2<int>, n: nat, m: int)
    requires top.Length0 > 0 && n < top.Length1
    modifies top
    ensures Column(top, n) == old(Column(top, n))[1..] + [m]
    ensures forall k, b :: 0 <= k < top.Length0 && 0 <= b < top.Length1 && b != n ==> top[k, b] == old(top[k, b])
  {
    for k := 0 to top.Length0 - 1
      invariant forall j, b :: 0 <= j < top.Length0 && 0 <= b < top.Length1 ==>
        top[j, b] == old(top[if b == n && j < k then j + 1 else j, b])
    {
      top[k, n] := top[k + 1, n];
    }
    top[top.Length0 - 1, n] := m;
  }

  ghost predicate Visited(b: int, c: int, m: int, n: int) {
    b < m || (b == m && c < n)
  }

  /** The ring buffers hold columns of the layout, and rows of visited positions (or -1). */
  ghost predicate Rings(layout: array3<int>, left: array<int>, top: array2<int>, m: int, n: int)
    reads left, top
  {
    left.Length > 0 && top.Length0 == left.Length && top.Length1 == layout.Length2 &&
    (forall k :: 0 <= k < left.Length ==> -1 <= left[k] < layout.Length2) &&
    (forall k, c :: 0 <= k < left.Length && 0 <= c < layout.Length2 ==>
      -1 <= top[k, c] < layout.Length1 && Visited(top[k, c], c, m, n))
  }

  /** Just before (m, n) is visited, the widths of head h are zero at every position not yet visited
      (so a stale `ii_left` entry reads 0), and positive only where the layout is nonzero. */
  ghost predicate Widths(layout: array3<int>, tmp: array3<int>, h: nat, m: int, n: int)
    reads layout, tmp
  {
    SameShape(tmp, layout) && h < layout.Length0 &&
    forall b, c :: 0 <= b < layout.Length1 && 0 <= c < layout.Length2 ==>
      0 <= tmp[h, b, c] && (tmp[h, b, c] > 0 ==> layout[h, b, c] != 0 && Visited(b, c, m, n))
  }

  // ---------------------------------------------------------------------------------------------
  // Square grids
  // ---------------------------------------------------------------------------------------------

  /** Rows and columns of one head. */
  datatype Grid = Grid(h: int, ms: seq<int>, ns: seq<int>)

  ghost function Last(s: seq<int>): int {
    if s == [] then -1 else s[|s| - 1]
  }

  /** Indices in ascending order. */
  ghost predicate Ascending(s: seq<int>) {
    (forall i :: 0 <= i < |s| ==> s[i] >= 0) && forall i, j :: 0 <= i < j < |s| ==> s[i] < s[j]
  }

  /** w rows and w columns; the cells of the last row and of the last column are among the given ones, and no other one
      lies between the last two rows and the last two columns. Up to width 2 the grid is compact. */
  ghost predicate IsGrid(g: Grid, w: nat, cells: set<Cell>) {
    |g.ms| == |g.ns| == w > 0 && Ascending(g.ms) && Ascending(g.ns) &&
    (forall i :: 0 <= i < w ==> Cell(g.h, g.ms[i], Last(g.ns)) in cells) &&
    (forall j :: 0 <= j < w ==> Cell(g.h, Last(g.ms), g.ns[j]) in cells) &&
    (w >= 2 ==> AloneIn(cells, g.h, g.ms[w - 2], Last(g.ms), g.ns[w - 2], Last(g.ns))) &&
    (w <= 2 ==> Compact(cells, g.h, g.ms, g.ns))
  }

  /** Beyond row m0 and column n0, up to row m and column n, there is (m, n) only. */
  ghost predicate AloneIn(cells: set<Cell>, h: int, m0: int, m: int, n0: int, n: int) {
    forall b, c :: m0 < b <= m && n0 < c <= n && Cell(h, b, c) in cells ==> b == m && c == n
  }

  /** The cells of one grid after the other, each row by row. */
  ghost function GridCells(gs: seq<Grid>): seq<Cell> {
    if gs == [] then []
    else GridCells(gs[..|gs| - 1]) + Carved(gs[|gs| - 1].h, gs[|gs| - 1].ms, gs[|gs| - 1].ns)
  }

  /** A list of w x w products, one after the other. */
  ghost predicate Blocks(s: seq<Cell>, w: nat, cells: set<Cell>) {
    exists gs :: (forall g :: g in gs ==> IsGrid(g, w, cells)) && s == GridCells(gs)
  }

  lemma {:induction false} GridCellsConcat(a: seq<Grid>, b: seq<Grid>)
    ensures GridCells(a + b) == GridCells(a) + GridCells(b)
  {
    hide Carved;
    if b == [] {
      assert a + b == a;
    } else {
      var k := |b| - 1;
      var init, last := b[..k], b[k];
      GridCellsConcat(a, init);
      assert (a + b)[..|a + b| - 1] == a + init && (a + b)[|a + b| - 1] == last;
    }
  }

  lemma BlocksConcat(s: seq<Cell>, t: seq<Cell>, w: nat, cells: set<Cell>)
    requires Blocks(s, w, cells) && Blocks(t, w, cells)
    ensures Blocks(s + t, w, cells)
  {
    hide IsGrid;
    var a :| (forall g :: g in a ==> IsGrid(g, w, cells)) && s == GridCells(a);
    var b :| (forall g :: g in b ==> IsGrid(g, w, cells)) && t == GridCells(b);
    GridCellsConcat(a, b);
    assert forall g :: g in a + b ==> IsGrid(g, w, cells);
  }

  lemma NoBlocks(w: nat, cells: set<Cell>)
    ensures Blocks([], w, cells)
  {
    assert GridCells([]) == [];
  }

  lemma OneBlock(g: Grid, w: nat, cells: set<Cell>)
    requires IsGrid(g, w, cells)
    ensures Blocks(Carved(g.h, g.ms, g.ns), w, cells)
  {
    assert [g][..0] == [] && GridCells([g]) == [] + Carved(g.h, g.ms, g.ns);
  }

  /** The cells of a grid, by position. */
  lemma {:induction false} CarvedRowAt(h: int, m: int, ns: seq<int>, b: nat)
    requires m >= 0 && (forall j :: 0 <= j < |ns| ==> ns[j] >= 0)
    ensures |CarvedRow(h, m, ns)| == |ns|
    ensures b < |ns| ==> CarvedRow(h, m, ns)[b] == Cell(h, m, ns[b])
  {
    if ns != [] { CarvedRowAt(h, m, ns[..|ns| - 1], b); }
  }

  /** A grid has the product of its rows and columns, row by row: entry (a, b) is row a at column b. */
  lemma {:induction false} CarvedAt(h: int, ms: seq<int>, ns: seq<int>, a: nat, b: nat)
    requires Ascending(ms) && Ascending(ns)
    ensures |Carved(h, ms, ns)| == |ms| * |ns|
    ensures a < |ms| && b < |ns| ==>
      0 <= a * |ns| + b < |Carved(h, ms, ns)| && Carved(h, ms, ns)[a * |ns| + b] == Cell(h, ms[a], ns[b])
  {
    if ms != [] {
      var n := |ms| - 1;
      CarvedAt(h, ms[..n], ns, a, b);
      CarvedRowAt(h, ms[n], ns, b);
      Distribute(n, 1, |ns|);
      if a < |ms| && b < |ns| { IndexBound(a, |ms|, |ns|, b); }
      if a < n && b < |ns| { IndexBound(a, n, |ns|, b); }
    }
  }

  /** What one visit may emit in a pass of width w: nothing, or a grid that ends here. */
  ghost predicate Emission(s: seq<Cell>, w: nat, cells: set<Cell>, here: Cell) {
    (s != [] ==> here in s) && (w <= 2 ==> NoDup(s)) && Blocks(s, w, cells)
  }

  function Min(a: int, b: int): int { if a <= b then a else b }

  ghost function WidthAt(tmp: array3<int>, h: nat, m: int, n: int): int
    requires h < tmp.Length0 && m < tmp.Length1 && n < tmp.Length2
    reads tmp
  {
    if m >= 0 && n >= 0 then tmp[h, m, n] else 0
  }

  /** Some column in lo..hi-1 was last seen in a row after m. */
  ghost predicate SeenLater(top: array2<int>, lo: int, hi: int, m: int)
    requires top.Length0 > 0 && 0 <= lo && hi <= top.Length1
    reads top
  {
    exists c :: lo <= c < hi && LastSeen(top, c) > m
  }

  ghost function LastSeen(top: array2<int>, c: nat): int
    requires top.Length0 > 0 && c < top.Length1
    reads top
  {
    top[top.Length0 - 1, c]
  }

  // ---------------------------------------------------------------------------------------------
  // Which grids a pass finds
  // ---------------------------------------------------------------------------------------------

  /** A grid all of whose cells are given, in a rectangle that, beyond its first row and column, holds no other. */
  ghost predicate Compact(cells: set<Cell>, h: int, ms: seq<int>, ns: seq<int>) {
    |ms| == |ns| > 0 && Ascending(ms) && Ascending(ns) &&
    (forall i, j :: 0 <= i < |ms| && 0 <= j < |ns| ==> Cell(h, ms[i], ns[j]) in cells) &&
    forall b, c :: ms[0] < b <= Last(ms) && ns[0] < c <= Last(ns) && Cell(h, b, c) in cells ==> b in ms && c in ns
  }

  /** A cell of the grid has been emitted. */
  ghost predicate Touched(done: seq<Cell>, h: int, ms: seq<int>, ns: seq<int>) {
    exists c :: c in done && c.h == h && c.m in ms && c.n in ns
  }

  /** The widths of one head. */
  ghost function Marks(tmp: array3<int>, h: nat): (s: seq<seq<int>>)
    requires h < tmp.Length0
    reads tmp
    ensures |s| == tmp.Length1
    ensures forall b :: 0 <= b < tmp.Length1 ==>
      |s[b]| == tmp.Length2 && forall c :: 0 <= c < tmp.Length2 ==> s[b][c] == tmp[h, b, c]
  {
    seq(tmp.Length1, b requires 0 <= b < tmp.Length1 reads tmp =>
      seq(tmp.Length2, c requires 0 <= c < tmp.Length2 reads tmp => tmp[h, b, c]))
  }

  ghost function Mark(s: seq<seq<int>>, b: int, c: int): int {
    if 0 <= b < |s| && 0 <= c < |s[b]| then s[b][c] else 0
  }

  /** Every compact grid that ends at a visited position and has lost no cell has its size as width there. */
  ghost predicate Grown(s: seq<seq<int>>, cells: set<Cell>, done: seq<Cell>, h: int, m: int, n: int) {
    forall ms, ns :: Compact(cells, h, ms, ns) && Visited(Last(ms), Last(ns), m, n) && !Touched(done, h, ms, ns) ==>
      Mark(s, Last(ms), Last(ns)) >= |ms|
  }

  /** The last t entries ascend. */
  ghost predicate Tail(s: seq<int>, t: int) {
    t <= |s| && Ascending(if t > 0 then s[|s| - t..] else [])
  }

  ghost predicate RowTail(s: seq<int>, t: int, cells: set<Cell>, h: int, m: int) {
    Tail(s, t) && forall i :: 0 <= i < |s| && |s| - t <= i ==> Cell(h, m, s[i]) in cells
  }

  ghost predicate ColumnTail(s: seq<int>, t: int, cells: set<Cell>, h: int, n: int) {
    Tail(s, t) && forall i :: 0 <= i < |s| && |s| - t <= i ==> Cell(h, s[i], n) in cells
  }

  ghost function Columns(top: array2<int>): (s: seq<seq<int>>)
    reads top
    ensures |s| == top.Length1 && forall c :: 0 <= c < top.Length1 ==> s[c] == Column(top, c)
  {
    seq(top.Length1, c requires 0 <= c < top.Length1 reads top => Column(top, c))
  }

  /** A ring buffer whose newest entry has width t holds t cells of this row, or of its column, in order. */
  ghost predicate Chained(left: seq<int>, columns: seq<seq<int>>, s: seq<seq<int>>, cells: set<Cell>, h: int, m: int) {
    RowTail(left, Mark(s, m, Last(left)), cells, h, m) &&
    forall c :: 0 <= c < |columns| ==> ColumnTail(columns[c], Mark(s, Last(columns[c]), c), cells, h, c)
  }

  /** The newest ring buffer entries: the last nonzero column of the row so far, and the last nonzero row of
      every column so far. */
  ghost predicate Latest(left: int, top: seq<int>, cells: set<Cell>, h: int, m: int, n: int) {
    (forall c :: 0 <= c < n && Cell(h, m, c) in cells ==> c <= left < n && Cell(h, m, left) in cells) &&
    (forall b, c :: 0 <= b && 0 <= c < |top| && Visited(b, c, m, n) && Cell(h, b, c) in cells ==> b <= top[c]) &&
    forall c :: 0 <= c < |top| && top[c] >= 0 ==> Cell(h, top[c], c) in cells && Visited(top[c], c, m, n)
  }

  ghost function Newest(top: array2<int>): (row: seq<int>)
    requires top.Length0 > 0
    reads top
    ensures |row| == top.Length1 && forall c :: 0 <= c < top.Length1 ==> row[c] == top[top.Length0 - 1, c]
  {
    seq(top.Length1, c requires 0 <= c < top.Length1 reads top => top[top.Length0 - 1, c])
  }

  /** The layout still holds the cells that have not been emitted; these have been visited. */
  ghost predicate Faithful(layout: array3<int>, cells: set<Cell>, done: seq<Cell>, h: nat, m: int, n: int)
    reads layout
  {
    h < layout.Length0 &&
    (forall b, c :: 0 <= b < layout.Length1 && 0 <= c < layout.Length2 ==>
      (layout[h, b, c] != 0 <==> Cell(h, b, c) in cells && Cell(h, b, c) !in done)) &&
    forall c :: c in done ==> Visited(c.m, c.n, m, n)
  }

  /** Where a pass over head h stands before (m, n), when it started with the given nonzero cells. */
  ghost predicate Tracking(layout: array3<int>, tmp: array3<int>, left: array<int>, top: array2<int>, cells: set<Cell>,
                           done: seq<Cell>, h: nat, m: int, n: int)
    reads layout, tmp, left, top
  {
    top.Length0 == left.Length > 0 && SameShape(tmp, layout) &&
    Faithful(layout, cells, done, h, m, n) && Latest(left[left.Length - 1], Newest(top), cells, h, m, n) &&
    Grown(Marks(tmp, h), cells, done, h, m, n) && Chained(left[..], Columns(top), Marks(tmp, h), cells, h, m)
  }

  /** Where a compact grid ends the ring buffers name its last row and column but one, and no column in between was
      seen in a later row. */
  lemma CompactIsLatest(left: int, top: seq<int>, cells: set<Cell>, h: int, ms: seq<int>, ns: seq<int>)
    requires Compact(cells, h, ms, ns) && |ms| >= 2 && Last(ns) < |top|
    requires Latest(left, top, cells, h, Last(ms), Last(ns))
    ensures left == ns[|ns| - 2] && top[Last(ns)] == ms[|ms| - 2]
    ensures forall c :: left < c < Last(ns) ==> top[c] <= top[Last(ns)]
  {
    var s, m, n := |ms|, Last(ms), Last(ns);
    assert Cell(h, ms[s - 1], ns[s - 2]) in cells && Cell(h, ms[s - 2], ns[s - 1]) in cells;
    assert Visited(ms[s - 2], n, m, n);
    assert left in ns && top[n] in ms;
    forall c | left < c < n ensures c !in ns {}
    assert forall c :: left < c < n && top[c] >= 0 ==> Cell(h, top[c], c) in cells;
  }

  /** Between the newest ring buffer entries and (m, n) there is no cell, unless a column in between was seen later. */
  lemma LatestAlone(left: int, top: seq<int>, cells: set<Cell>, h: int, m: int, n: int)
    requires Latest(left, top, cells, h, m, n) && 0 <= n < |top| && 0 <= top[n] && -1 <= left
    requires forall c :: left < c < n ==> top[c] <= top[n]
    ensures AloneIn(cells, h, top[n], m, left, n)
  {
    assert forall b, c :: Visited(b, c, m, n) <==> b < m || (b == m && c < n);
  }

  /** The three parts of a grid that end next to its last cell are compact, and lose no cell the grid does not lose. */
  lemma CompactParts(cells: set<Cell>, done: seq<Cell>, h: int, ms: seq<int>, ns: seq<int>)
    requires Compact(cells, h, ms, ns) && |ms| >= 2
    ensures var s := |ms| - 1;
      Compact(cells, h, ms[1..], ns[..s]) && Compact(cells, h, ms[..s], ns[1..]) && Compact(cells, h, ms[..s], ns[..s])
    ensures !Touched(done, h, ms, ns) ==>
      var s := |ms| - 1;
      !Touched(done, h, ms[1..], ns[..s]) && !Touched(done, h, ms[..s], ns[1..]) &&
      !Touched(done, h, ms[..s], ns[..s])
  {
    var s := |ms| - 1;
    assert Ascending(ms) && Ascending(ns);
    hide Compact, Touched, IsPart;
    PartsOf(ms);
    PartsOf(ns);
    Part(cells, done, h, ms, ns, ms[1..], ns[..s]);
    Part(cells, done, h, ms, ns, ms[..s], ns[1..]);
    Part(cells, done, h, ms, ns, ms[..s], ns[..s]);
  }

  /** A stretch of ascending indices: all those between its first and its last one. */
  ghost predicate IsPart(part: seq<int>, s: seq<int>) {
    part != [] && s != [] && Ascending(part) && s[0] <= part[0] && Last(part) <= Last(s) &&
    (forall x :: x in part ==> x in s) && forall x :: x in s && part[0] <= x <= Last(part) ==> x in part
  }

  lemma PartsOf(s: seq<int>)
    requires Ascending(s) && |s| >= 2
    ensures IsPart(s[1..], s) && IsPart(s[..|s| - 1], s)
  {
    forall x | x in s && x >= s[1] ensures x in s[1..] {
      var k :| 0 <= k < |s| && s[k] == x;
      assert s[1..][k - 1] == x;
    }
    forall x | x in s && x <= s[|s| - 2] ensures x in s[..|s| - 1] {
      var k :| 0 <= k < |s| && s[k] == x;
      assert s[..|s| - 1][k] == x;
    }
  }

  lemma CompactCell(cells: set<Cell>, h: int, ms: seq<int>, ns: seq<int>, b: int, c: int)
    requires Compact(cells, h, ms, ns) && b in ms && c in ns
    ensures Cell(h, b, c) in cells
  {
    var i :| 0 <= i < |ms| && ms[i] == b;
    var j :| 0 <= j < |ns| && ns[j] == c;
    assert Cell(h, ms[i], ns[j]) in cells;
  }

  lemma Part(cells: set<Cell>, done: seq<Cell>, h: int, ms: seq<int>, ns: seq<int>, rows: seq<int>, columns: seq<int>)
    requires Compact(cells, h, ms, ns) && IsPart(rows, ms) && IsPart(columns, ns) && |rows| == |columns|
    ensures Compact(cells, h, rows, columns)
    ensures Touched(done, h, rows, columns) ==> Touched(done, h, ms, ns)
  {
    hide Touched;
    PartTouched(done, h, ms, ns, rows, columns);
    forall i, j | 0 <= i < |rows| && 0 <= j < |columns| ensures Cell(h, rows[i], columns[j]) in cells {
      CompactCell(cells, h, ms, ns, rows[i], columns[j]);
    }
    forall b, c | rows[0] < b <= Last(rows) && columns[0] < c <= Last(columns) && Cell(h, b, c) in cells
      ensures b in rows && c in columns
    {
      assert b in ms && c in ns;
    }
  }

  lemma PartTouched(done: seq<Cell>, h: int, ms: seq<int>, ns: seq<int>, rows: seq<int>, columns: seq<int>)
    requires (forall x :: x in rows ==> x in ms) && forall x :: x in columns ==> x in ns
    ensures Touched(done, h, rows, columns) ==> Touched(done, h, ms, ns)
  {
  }

  /** A compact grid that ends here and has lost no cell: its three neighbouring parts have their size as width. */
  lemma GridHasWidth(s: seq<seq<int>>, left: int, top: seq<int>, cells: set<Cell>, done: seq<Cell>, h: int,
                     ms: seq<int>, ns: seq<int>)
    requires Compact(cells, h, ms, ns) && |ms| >= 2 && !Touched(done, h, ms, ns) && Last(ns) < |top|
    requires Grown(s, cells, done, h, Last(ms), Last(ns)) && Latest(left, top, cells, h, Last(ms), Last(ns))
    ensures forall c :: left < c < Last(ns) ==> top[c] <= top[Last(ns)]
    ensures Mark(s, Last(ms), left) >= |ms| - 1 && Mark(s, top[Last(ns)], Last(ns)) >= |ms| - 1
    ensures Mark(s, top[Last(ns)], left) >= |ms| - 1
  {
    hide Compact, Touched, Latest, Mark;
    CompactIsLatest(left, top, cells, h, ms, ns);
    CompactParts(cells, done, h, ms, ns);
    AscendingEnds(cells, h, ms, ns);
    var t := |ms| - 1;
    assert Last(ms[1..]) == Last(ms) && Last(ns[1..]) == Last(ns);
    assert Last(ms[..t]) == ms[t - 1] && Last(ns[..t]) == ns[t - 1];
  }

  lemma AscendingEnds(cells: set<Cell>, h: int, ms: seq<int>, ns: seq<int>)
    requires Compact(cells, h, ms, ns)
    ensures |ms| == |ns| > 0
    ensures |ms| >= 2 ==> ms[|ms| - 2] < Last(ms) && ns[|ns| - 2] < Last(ns)
  {
  }

  lemma SkipGrown(s: seq<seq<int>>, cells: set<Cell>, done: seq<Cell>, h: int, m: int, n: int)
    requires Grown(s, cells, done, h, m, n) && Cell(h, m, n) !in cells
    ensures Grown(s, cells, done, h, m, n + 1)
  {
    forall ms, ns | Compact(cells, h, ms, ns) && Visited(Last(ms), Last(ns), m, n + 1) && !Touched(done, h, ms, ns)
      ensures Mark(s, Last(ms), Last(ns)) >= |ms|
    {
      assert Cell(h, ms[|ms| - 1], ns[|ns| - 1]) in cells;
    }
  }

  lemma NextRowGrown(s: seq<seq<int>>, cells: set<Cell>, done: seq<Cell>, h: int, m: int, n: int)
    requires Grown(s, cells, done, h, m, n) && forall c :: c in cells ==> 0 <= c.n < n
    ensures Grown(s, cells, done, h, m + 1, 0)
  {
    forall ms, ns | Compact(cells, h, ms, ns) && Visited(Last(ms), Last(ns), m + 1, 0) && !Touched(done, h, ms, ns)
      ensures Mark(s, Last(ms), Last(ns)) >= |ms|
    {
      assert Cell(h, ms[|ms| - 1], ns[|ns| - 1]) in cells;
    }
  }

  /** A new width at (m, n), at least the size of every compact grid that ends there. */
  lemma RecordGrown(s: seq<seq<int>>, t: seq<seq<int>>, width: int, cells: set<Cell>, done: seq<Cell>, h: int, m: int,
                    n: int)
    requires Grown(s, cells, done, h, m, n)
    requires forall b, c :: Mark(t, b, c) == if b == m && c == n then width else Mark(s, b, c)
    requires forall ms, ns ::
      Compact(cells, h, ms, ns) && !Touched(done, h, ms, ns) && Last(ms) == m && Last(ns) == n ==> width >= |ms|
    ensures Grown(t, cells, done, h, m, n + 1)
  {
    hide Compact, Touched, Mark;
  }

  /** Emitted cells lose their width, and grids that end there have lost a cell. */
  lemma CarveGrown(s: seq<seq<int>>, t: seq<seq<int>>, cells: set<Cell>, done: seq<Cell>, more: seq<Cell>, h: int,
                   m: int, n: int)
    requires Grown(s, cells, done, h, m, n)
    requires forall b, c :: Mark(t, b, c) == if Cell(h, b, c) in more then 0 else Mark(s, b, c)
    ensures Grown(t, cells, done + more, h, m, n)
  {
    hide Mark;
    forall ms, ns | Compact(cells, h, ms, ns) && Visited(Last(ms), Last(ns), m, n) && !Touched(done + more, h, ms, ns)
      ensures Mark(t, Last(ms), Last(ns)) >= |ms|
    {
      assert Last(ms) in ms && Last(ns) in ns;
      TouchedEarlier(done, more, h, ms, ns);
    }
  }

  lemma TouchedEarlier(done: seq<Cell>, more: seq<Cell>, h: int, ms: seq<int>, ns: seq<int>)
    ensures Touched(done, h, ms, ns) || Touched(more, h, ms, ns) <==> Touched(done + more, h, ms, ns)
  {
  }

  lemma TailShrinks(s: seq<int>, t: int, u: int)
    requires Tail(s, t) && u <= t
    ensures Tail(s, u)
  {
    if u > 0 {
      var a, b := s[|s| - t..], s[|s| - u..];
      assert forall i :: 0 <= i < |b| ==> b[i] == a[i + t - u];
    }
  }

  lemma TailGrows(s: seq<int>, t: int, x: int)
    requires s != [] && 1 <= t <= |s| && x >= 0 && Tail(s, t - 1) && (t > 1 ==> Last(s) < x)
    ensures Tail(s[1..] + [x], t)
  {
    var next := s[1..] + [x];
    var a, b := s[|s| - (t - 1)..], next[|next| - t..];
    assert b == a + [x];
    assert t > 1 ==> a[|a| - 1] == Last(s);
  }

  /** Lower widths chain no more entries. */
  lemma ChainedShrinks(left: seq<int>, columns: seq<seq<int>>, s: seq<seq<int>>, t: seq<seq<int>>, cells: set<Cell>,
                       h: int, m: int)
    requires Chained(left, columns, s, cells, h, m) && forall b, c :: Mark(t, b, c) <= Mark(s, b, c)
    ensures Chained(left, columns, t, cells, h, m)
  {
    hide Mark, Tail;
    TailShrinks(left, Mark(s, m, Last(left)), Mark(t, m, Last(left)));
    forall c | 0 <= c < |columns| ensures ColumnTail(columns[c], Mark(t, Last(columns[c]), c), cells, h, c) {
      TailShrinks(columns[c], Mark(s, Last(columns[c]), c), Mark(t, Last(columns[c]), c));
    }
  }

  /** Pushing (m, n) of the given width onto both ring buffers. */
  lemma ChainedGrows(left: seq<int>, columns: seq<seq<int>>, s: seq<seq<int>>, t: seq<seq<int>>, width: int,
                     cells: set<Cell>, h: int, m: nat, n: nat)
    requires Chained(left, columns, s, cells, h, m) && n < |columns| && Cell(h, m, n) in cells
    requires 1 <= width <= |left| == |columns[n]|
    requires width > 1 ==> Last(left) < n && Last(columns[n]) < m
    requires width > 1 ==> width - 1 <= Mark(s, m, Last(left)) && width - 1 <= Mark(s, Last(columns[n]), n)
    requires forall b, c :: Mark(t, b, c) == if b == m && c == n then width else Mark(s, b, c)
    ensures Chained(left[1..] + [n], columns[n := columns[n][1..] + [m]], t, cells, h, m)
  {
    hide Mark, Tail;
    var next, nexts := left[1..] + [n], columns[n := columns[n][1..] + [m]];
    OneTail(left, columns[n]);
    TailShrinks(left, if width > 1 then Mark(s, m, Last(left)) else 0, width - 1);
    TailShrinks(columns[n], if width > 1 then Mark(s, Last(columns[n]), n) else 0, width - 1);
    TailGrows(left, width, n);
    TailGrows(columns[n], width, m);
    assert Last(next) == n && Last(nexts[n]) == m;
    assert RowTail(next, width, cells, h, m) && ColumnTail(nexts[n], width, cells, h, n);
  }

  lemma OneTail(a: seq<int>, b: seq<int>)
    ensures Tail(a, 0) && Tail(b, 0)
  {
  }

  /** With the full width at (m, n) the ring buffers are a grid. */
  lemma ChainedGrid(left: seq<int>, columns: seq<seq<int>>, s: seq<seq<int>>, cells: set<Cell>, h: int, m: nat, n: nat)
    requires Chained(left, columns, s, cells, h, m) && n < |columns| && |left| == |columns[n]| > 0
    requires Last(left) == n && Last(columns[n]) == m && Mark(s, m, n) == |left|
    requires |left| >= 2 ==> AloneIn(cells, h, columns[n][|left| - 2], m, left[|left| - 2], n)
    requires |left| == 2 ==> Cell(h, columns[n][0], left[0]) in cells
    ensures IsGrid(Grid(h, columns[n], left), |left|, cells)
  {
    hide Mark;
    assert RowTail(left, |left|, cells, h, m) && ColumnTail(columns[n], |left|, cells, h, n);
    WholeTail(left);
    WholeTail(columns[n]);
    if |left| <= 2 { SmallCompact(cells, h, columns[n], left); }
  }

  lemma SmallCompact(cells: set<Cell>, h: int, ms: seq<int>, ns: seq<int>)
    requires 1 <= |ms| == |ns| <= 2 && Ascending(ms) && Ascending(ns)
    requires forall i, j :: 0 <= i < |ms| && 0 <= j < |ns| ==> Cell(h, ms[i], ns[j]) in cells
    requires |ms| == 2 ==> AloneIn(cells, h, ms[0], ms[1], ns[0], ns[1])
    ensures Compact(cells, h, ms, ns)
  {
  }

  lemma WholeTail(s: seq<int>)
    requires Tail(s, |s|)
    ensures Ascending(s)
  {
    assert s[|s| - |s|..] == s;
  }

  lemma SkipLatest(left: int, top: seq<int>, cells: set<Cell>, h: int, m: int, n: int)
    requires Latest(left, top, cells, h, m, n) && Cell(h, m, n) !in cells
    ensures Latest(left, top, cells, h, m, n + 1)
  {
  }

  lemma PushLatest(left: int, top: seq<int>, cells: set<Cell>, h: int, m: int, n: int)
    requires Latest(left, top, cells, h, m, n) && Cell(h, m, n) in cells && 0 <= m && 0 <= n < |top|
    ensures Latest(n, top[n := m], cells, h, m, n + 1)
  {
  }

  lemma NextRowLatest(left: int, top: seq<int>, cells: set<Cell>, h: int, m: int)
    requires Latest(left, top, cells, h, m, |top|)
    requires forall c :: c in cells ==> 0 <= c.n < |top|
    ensures Latest(left, top, cells, h, m + 1, 0)
  {
  }

  /** The width of the group ending at (m, n): one more than the least of its left, top and top-left
      neighbours, unless a column in between was seen in a later row than column n. */
  ghost function WidthOf(tmp: array3<int>, left: array<int>, top: array2<int>, h: nat, m: nat, n: nat): int
    requires h < tmp.Length0 && m < tmp.Length1 && n < tmp.Length2
    requires left.Length > 0 && top.Length0 == left.Length && top.Length1 == tmp.Length2
    requires -1 <= left[left.Length - 1] < tmp.Length2 && top[left.Length - 1, n] < tmp.Length1
    reads tmp, left, top
  {
    var n0, m0 := left[left.Length - 1], top[left.Length - 1, n];
    if SeenLater(top, n0 + 1, n, m0) then 1
    else 1 + Min(WidthAt(tmp, h, m, n0), Min(WidthAt(tmp, h, m0, n), WidthAt(tmp, h, m0, n0)))
  }

  method GroupWidth(tmp: array3<int>, left: array<int>, top: array2<int>, h: nat, m: nat, n: nat)
    returns (width: int)
    requires h < tmp.Length0 && m < tmp.Length1 && n < tmp.Length2
    requires left.Length > 0 && top.Length0 == left.Length && top.Length1 == tmp.Length2
    requires -1 <= left[left.Length - 1] < tmp.Length2 && top[left.Length - 1, n] < tmp.Length1
    ensures width == WidthOf(tmp, left, top, h, m, n)
  {
    var w := left.Length;
    var n_left := left[w - 1];
    var m_top := top[w - 1, n];
    var topWidth := if m_top >= 0 then tmp[h, m_top, n] else 0;
    var leftWidth := if n_left >= 0 then tmp[h, m, n_left] else 0;
    var topLeftWidth := if m_top >= 0 && n_left >= 0 then tmp[h, m_top, n_left] else 0;
    width := Min(leftWidth, Min(topWidth, topLeftWidth)) + 1;
    ghost var packed := width;
    var nn := n_left + 1;
    while nn < n
      invariant n_left < nn && (nn <= n || nn == n_left + 1) && nn <= top.Length1
      invariant width == if SeenLater(top, n_left + 1, nn, m_top) then 1 else packed
    {
      assert LastSeen(top, nn) == top[w - 1, nn];
      if top[w - 1, nn] > top[w - 1, n] { width := 1; }
      nn := nn + 1;
    }
  }

  /** Every width at head h is below the pass width, except possibly at `here`. */
  ghost predicate Small(tmp: array3<int>, h: nat, w: nat, here: Cell)
    requires h < tmp.Length0
    reads tmp
  {
    forall b, c :: 0 <= b < tmp.Length1 && 0 <= c < tmp.Length2 && Cell(h, b, c) != here ==> tmp[h, b, c] < w
  }

  const NOWHERE := Cell(-1, -1, -1)

  /** Pushes m onto the ring buffer of column n. */
  method PushTop(top: array2<int>, n: nat, m: int)
    requires top.Length0 > 0 && n < top.Length1
    modifies top
    ensures Column(top, n) == old(Column(top, n))[1..] + [m]
    ensures forall k, b :: 0 <= k < top.Length0 && 0 <= b < top.Length1 && b != n ==> top[k, b] == old(top[k, b])
    ensures Columns(top) == old(Columns(top))[n := old(Columns(top))[n][1..] + [m]]
  {
    ghost var columns := Columns(top);
    ShiftTop(top, n, m);
    forall c | 0 <= c < top.Length1 ensures Column(top, c) == columns[n := columns[n][1..] + [m]][c] {
      if c != n { assert forall k :: 0 <= k < top.Length0 ==> top[k, c] == columns[c][k]; }
    }
  }

  /** Pushes (m, n) onto both ring buffers. */
  method Push(layout: array3<int>, left: array<int>, top: array2<int>, m: nat, n: nat)
    requires Rings(layout, left, top, m, n) && m < layout.Length1 && n < layout.Length2
    modifies left, top
    ensures Rings(layout, left, top, m, n + 1)
    ensures left[left.Length - 1] == n && top[left.Length - 1, n] == m
    ensures forall k :: 0 <= k < left.Length - 1 ==> left[k] == old(left[k + 1]) && top[k, n] == old(top[k + 1, n])
    ensures Newest(top) == old(Newest(top))[n := m]
    ensures left[..] == old(left[..])[1..] + [n]
    ensures Columns(top) == old(Columns(top))[n := old(Columns(top))[n][1..] + [m]]
  {
    assert forall k :: 0 <= k < left.Length ==> top[k, n] == Column(top, n)[k];
    ShiftLeft(left, n);
    PushTop(top, n, m);
    assert forall k :: 0 <= k < left.Length ==> left[k] == left[..][k] && top[k, n] == Column(top, n)[k];
  }

  lemma FaithfulCell(layout: array3<int>, cells: set<Cell>, done: seq<Cell>, h: nat, m: int, n: int, c: Cell)
    requires Faithful(layout, cells, done, h, m, n) && InLayout(layout, c) && c.h == h && layout[h, c.m, c.n] != 0
    ensures c in cells
  {
    assert Cell(h, c.m, c.n) == c;
  }

  /** What the width at a nonzero cell says: no compact grid that ends there and has lost no cell is larger, and with a
      width above 1 the cell is alone beyond its neighbours. */
  lemma WidthMeaning(layout: array3<int>, tmp: array3<int>, h: nat, left: array<int>, top: array2<int>, m: nat, n: nat,
                     cells: set<Cell>, done: seq<Cell>)
    requires Rings(layout, left, top, m, n) && Widths(layout, tmp, h, m, n)
    requires Tracking(layout, tmp, left, top, cells, done, h, m, n) && m < layout.Length1 && n < layout.Length2
    ensures var width, n0, m0 := WidthOf(tmp, left, top, h, m, n), left[left.Length - 1], top[left.Length - 1, n];
      1 <= width &&
      (forall ms, ns ::
        Compact(cells, h, ms, ns) && !Touched(done, h, ms, ns) && Last(ms) == m && Last(ns) == n ==> width >= |ms|) &&
      (width > 1 ==>
        0 <= n0 < n && 0 <= m0 < m && layout[h, m0, n0] != 0 && layout[h, m0, n] != 0 && layout[h, m, n0] != 0 &&
        width - 1 <= Mark(Marks(tmp, h), m, n0) && width - 1 <= Mark(Marks(tmp, h), m0, n) &&
        AloneIn(cells, h, m0, m, n0, n) && Cell(h, m0, n0) in cells)
  {
    hide Latest, Compact, Touched, Grown, Chained, Faithful, AloneIn;
    var width, n0 := WidthOf(tmp, left, top, h, m, n), left[left.Length - 1];
    assert forall c :: n0 < c < n ==> LastSeen(top, c) == Newest(top)[c];
    forall ms, ns | Compact(cells, h, ms, ns) && !Touched(done, h, ms, ns) && Last(ms) == m && Last(ns) == n
      ensures width >= |ms|
    {
      if |ms| >= 2 { GridHasWidth(Marks(tmp, h), n0, Newest(top), cells, done, h, ms, ns); }
    }
    if width > 1 {
      LatestAlone(n0, Newest(top), cells, h, m, n);
      FaithfulCell(layout, cells, done, h, m, n, Cell(h, top[left.Length - 1, n], n0));
    }
  }

  /** Records the width at a nonzero cell. */
  method Record(layout: array3<int>, tmp: array3<int>, h: nat, left: array<int>, top: array2<int>, m: nat, n: nat,
                ghost cells: set<Cell>, ghost done: seq<Cell>)
    returns (width: int)
    requires layout != tmp && Rings(layout, left, top, m, n) && Widths(layout, tmp, h, m, n)
    requires Small(tmp, h, left.Length, NOWHERE) && Tracking(layout, tmp, left, top, cells, done, h, m, n)
    requires m < layout.Length1 && n < layout.Length2 && layout[h, m, n] != 0
    modifies tmp
    ensures Widths(layout, tmp, h, m, n + 1) && OtherHeadsKept(tmp, h)
    ensures 1 <= width <= left.Length
    ensures Small(tmp, h, left.Length, if width == left.Length then Cell(h, m, n) else NOWHERE)
    ensures forall b, c ::
      Mark(Marks(tmp, h), b, c) == if b == m && c == n then width else Mark(old(Marks(tmp, h)), b, c)
    ensures width > 1 ==>
      var n0, m0 := left[left.Length - 1], top[left.Length - 1, n];
      0 <= n0 < n && 0 <= m0 < m && layout[h, m0, n0] != 0 && layout[h, m0, n] != 0 && layout[h, m, n0] != 0 &&
      width - 1 <= Mark(old(Marks(tmp, h)), m, n0) && width - 1 <= Mark(old(Marks(tmp, h)), m0, n) &&
      AloneIn(cells, h, m0, m, n0, n) && Cell(h, m0, n0) in cells
    ensures Grown(Marks(tmp, h), cells, done, h, m, n + 1)
  {
    hide Latest, Compact, Touched, Grown, Chained, Faithful, AloneIn, WidthOf;
    WidthMeaning(layout, tmp, h, left, top, m, n, cells, done);
    width := GroupWidth(tmp, left, top, h, m, n);
    ghost var before := Marks(tmp, h);
    WidthBound(tmp, left, top, h, m, n);
    tmp[h, m, n] := width;
    RecordGrown(before, Marks(tmp, h), width, cells, done, h, m, n);
  }

  lemma WidthBound(tmp: array3<int>, left: array<int>, top: array2<int>, h: nat, m: nat, n: nat)
    requires h < tmp.Length0 && m < tmp.Length1 && n < tmp.Length2
    requires left.Length > 0 && top.Length0 == left.Length && top.Length1 == tmp.Length2
    requires -1 <= left[left.Length - 1] < tmp.Length2 && top[left.Length - 1, n] < tmp.Length1
    requires Small(tmp, h, left.Length, NOWHERE)
    ensures WidthOf(tmp, left, top, h, m, n) <= left.Length
  {
  }

  /** The retained-block branch: the widths stay consistent because a cell is erased from both tensors. */
  method Retain(layout: array3<int>, tmp: array3<int>, idx: array3<int>, scratch: array3<int>, h: nat,
                left: array<int>, top: array2<int>, m: nat, n: nat, start: nat, ghost before: seq<Cell>,
                ghost all: set<Cell>)
    returns (current: nat)
    requires Tensors(layout, tmp, idx, scratch)
    requires Rings(layout, left, top, m, n + 1) && Widths(layout, tmp, h, m, n + 1)
    requires n < layout.Length2 && Small(tmp, h, left.Length, Cell(h, m, n))
    requires Tracking(layout, tmp, left, top, all, before, h, m, n + 1)
    requires forall c :: c in Carved(h, Column(top, n), left[..]) ==> Visited(c.m, c.n, m, n + 1)
    requires Cell(h, m, n) in Carved(h, Column(top, n), left[..])
    requires start == |before| && Stored(scratch, idx, h, before)
    modifies layout, tmp, scratch
    ensures var cells := Carved(h, Column(top, n), left[..]);
      Erased(layout, cells) && current == |before + cells| && Stored(scratch, idx, h, before + cells)
    ensures Widths(layout, tmp, h, m, n + 1) && Small(tmp, h, left.Length, NOWHERE)
    ensures OtherHeadsKept(tmp, h) && OtherHeadsKept(scratch, h)
    ensures Tracking(layout, tmp, left, top, all, before + Carved(h, Column(top, n), left[..]), h, m, n + 1)
  {
    hide Latest, Grown, Chained, Carved;
    CarvedMembers(h, Column(top, n), left[..]);
    ghost var marks, cells := Marks(tmp, h), Carved(h, Column(top, n), left[..]);
    current := Carve(layout, tmp, idx, scratch, h, top, left, n, start, before);
    assert forall b, c :: Mark(Marks(tmp, h), b, c) == if Cell(h, b, c) in cells then 0 else Mark(marks, b, c);
    CarveGrown(marks, Marks(tmp, h), all, before, cells, h, m, n + 1);
    ChainedShrinks(left[..], Columns(top), marks, Marks(tmp, h), all, h, m);
  }

  lemma FaithfulNext(layout: array3<int>, cells: set<Cell>, done: seq<Cell>, h: nat, m: nat, n: nat)
    requires Faithful(layout, cells, done, h, m, n)
    requires m < layout.Length1 && n < layout.Length2
    ensures Faithful(layout, cells, done, h, m, n + 1)
    ensures layout[h, m, n] != 0 ==> Cell(h, m, n) in cells
  {
  }

  /** The first half of a visit: the width is recorded and the position pushed. With the full width the ring buffers
      hold a grid. */
  method Measure(layout: array3<int>, tmp: array3<int>, h: nat, left: array<int>, top: array2<int>, m: nat, n: nat,
                 ghost all: set<Cell>, ghost done: seq<Cell>)
    returns (width: int)
    requires layout != tmp && Rings(layout, left, top, m, n) && Widths(layout, tmp, h, m, n)
    requires Small(tmp, h, left.Length, NOWHERE) && Tracking(layout, tmp, left, top, all, done, h, m, n)
    requires m < layout.Length1 && n < layout.Length2 && layout[h, m, n] != 0
    modifies tmp, left, top
    ensures Rings(layout, left, top, m, n + 1) && Widths(layout, tmp, h, m, n + 1) && OtherHeadsKept(tmp, h)
    ensures left[left.Length - 1] == n && top[left.Length - 1, n] == m && 1 <= width <= left.Length
    ensures Small(tmp, h, left.Length, if width == left.Length then Cell(h, m, n) else NOWHERE)
    ensures Tracking(layout, tmp, left, top, all, done, h, m, n + 1)
    ensures width == left.Length ==> IsGrid(Grid(h, Column(top, n), left[..]), left.Length, all)
    ensures width == left.Length == 2 ==>
      var n0, m0 := left[0], top[0, n];
      n0 >= 0 && m0 >= 0 && layout[h, m0, n0] != 0 && layout[h, m0, n] != 0 && layout[h, m, n0] != 0
  {
    hide Latest, Compact, Touched, Grown, Chained, IsGrid, AloneIn, Mark, Faithful;
    FaithfulNext(layout, all, done, h, m, n);
    PushLatest(left[left.Length - 1], Newest(top), all, h, m, n);
    ghost var before, row, columns := Marks(tmp, h), left[..], Columns(top);
    assert Last(row) == left[left.Length - 1] && Last(columns[n]) == top[left.Length - 1, n];
    width := Record(layout, tmp, h, left, top, m, n, all, done);
    ChainedGrows(row, columns, before, Marks(tmp, h), width, all, h, m, n);
    Push(layout, left, top, m, n);
    if width == left.Length { ChainedGrid(left[..], Columns(top), Marks(tmp, h), all, h, m, n); }
  }

  /** The body of the scan at one nonzero cell. */
  method Visit(layout: array3<int>, tmp: array3<int>, idx: array3<int>, scratch: array3<int>, h: nat,
               left: array<int>, top: array2<int>, m: nat, n: nat, start: nat, ghost before: seq<Cell>,
               ghost all: set<Cell>)
    returns (current: nat, ghost cells: seq<Cell>)
    requires Tracking(layout, tmp, left, top, all, before, h, m, n)
    requires Tensors(layout, tmp, idx, scratch) && forall c :: c in all ==> InLayout(layout, c)
    requires Rings(layout, left, top, m, n) && Widths(layout, tmp, h, m, n) && Small(tmp, h, left.Length, NOWHERE)
    requires m < layout.Length1 && n < layout.Length2 && layout[h, m, n] != 0
    requires start == |before| && Stored(scratch, idx, h, before)
    modifies layout, tmp, scratch, left, top
    ensures Rings(layout, left, top, m, n + 1) && Widths(layout, tmp, h, m, n + 1)
    ensures Small(tmp, h, left.Length, NOWHERE)
    ensures Erased(layout, cells) && OtherHeadsKept(tmp, h) && OtherHeadsKept(scratch, h)
    ensures current == |before + cells| && Stored(scratch, idx, h, before + cells)
    ensures Emission(cells, left.Length, all, Cell(h, m, n))
    ensures forall c :: c in cells ==> InLayout(layout, c) && c.h == h
    ensures left.Length <= 2 ==> forall c :: c in cells ==> InLayout(layout, c) && old(layout[c.h, c.m, c.n]) != 0
    ensures Tracking(layout, tmp, left, top, all, before + cells, h, m, n + 1)
  {
    hide Latest, Compact, Touched, Carved, Stored, Grown, Chained, Faithful, IsGrid, Blocks;
    var w := left.Length;
    var width := Measure(layout, tmp, h, left, top, m, n, all, before);
    current, cells := start, [];
    assert before + cells == before;
    NoBlocks(w, all);
    if width == w {
      GroupReady(layout, left, top, h, m, n, all);
      cells := Carved(h, Column(top, n), left[..]);
      current := Retain(layout, tmp, idx, scratch, h, left, top, m, n, start, before, all);
    }
  }

  /** The grid about to be carved lies in the layout, ends at (m, n) and, up to width 2, is nonzero. */
  lemma GroupReady(layout: array3<int>, left: array<int>, top: array2<int>, h: nat, m: nat, n: nat, all: set<Cell>)
    requires h < layout.Length0 && m < layout.Length1 && n < layout.Length2 && layout[h, m, n] != 0
    requires Rings(layout, left, top, m, n + 1) && IsGrid(Grid(h, Column(top, n), left[..]), left.Length, all)
    requires left[left.Length - 1] == n && top[left.Length - 1, n] == m
    requires left.Length == 2 ==>
      var n0, m0 := left[0], top[0, n];
      n0 >= 0 && m0 >= 0 && layout[h, m0, n0] != 0 && layout[h, m0, n] != 0 && layout[h, m, n0] != 0
    ensures Cell(h, m, n) in Carved(h, Column(top, n), left[..])
    ensures Emission(Carved(h, Column(top, n), left[..]), left.Length, all, Cell(h, m, n))
    ensures forall c :: c in Carved(h, Column(top, n), left[..]) ==>
      InLayout(layout, c) && c.h == h && Visited(c.m, c.n, m, n + 1) &&
        (left.Length <= 2 ==> layout[c.h, c.m, c.n] != 0)
  {
    hide Carved, Blocks;
    var ms, ns := Column(top, n), left[..];
    assert ms[left.Length - 1] == m && ns[left.Length - 1] == n;
    OneBlock(Grid(h, ms, ns), left.Length, all);
    if left.Length <= 2 { SmallGrid(h, ms, ns); }
    CarvedMembers(h, ms, ns);
    assert m in ms && n in ns;
  }

  /** A grid of one or four cells. */
  lemma SmallGrid(h: int, ms: seq<int>, ns: seq<int>)
    requires 1 <= |ms| == |ns| <= 2 && Ascending(ms) && Ascending(ns)
    ensures NoDup(Carved(h, ms, ns))
  {
    if |ms| == 1 {
      assert ms == [ms[0]] && ns == [ns[0]];
      CarvedOne(h, ms[0], ns[0]);
    } else {
      assert ms == [ms[0], ms[1]] && ns == [ns[0], ns[1]];
      CarvedTwo(h, ms[0], ms[1], ns[0], ns[1]);
    }
  }

  lemma CarvedOne(h: int, m: nat, n: nat)
    ensures Carved(h, [m], [n]) == [Cell(h, m, n)]
  {
    assert Carved(h, [], [n]) == [] && CarvedRow(h, m, []) == [];
    assert [m][..0] == [] && [n][..0] == [];
  }

  lemma CarvedTwo(h: int, m0: nat, m1: nat, n0: nat, n1: nat)
    ensures Carved(h, [m0, m1], [n0, n1]) ==
            [Cell(h, m0, n0), Cell(h, m0, n1), Cell(h, m1, n0), Cell(h, m1, n1)]
  {
    assert [m0, m1][..1] == [m0] && [n0, n1][..1] == [n0] && [m0][..0] == [] && [n0][..0] == [];
    assert CarvedRow(h, m0, [n0]) == [Cell(h, m0, n0)];
    assert CarvedRow(h, m1, [n0]) == [Cell(h, m1, n0)];
    assert Carved(h, [m0], [n0, n1]) == CarvedRow(h, m0, [n0, n1]);
  }

  /** What the emissions of a pass satisfy: a list of grids and, up to width 2, no cell twice. */
  ghost predicate Emissions(s: seq<Cell>, w: nat, cells: set<Cell>) {
    (w <= 2 ==> NoDup(s)) && Blocks(s, w, cells)
  }

  lemma EmissionsExtend(s: seq<Cell>, more: seq<Cell>, w: nat, cells: set<Cell>, here: Cell)
    requires Emissions(s, w, cells) && Emission(more, w, cells, here)
    requires w <= 2 ==> forall c :: c in more ==> c !in s
    ensures Emissions(s + more, w, cells)
  {
    hide Blocks;
    BlocksConcat(s, more, w, cells);
    if w <= 2 { NoDupConcat(s, more); }
  }

  lemma NoDupConcat<T>(a: seq<T>, b: seq<T>)
    requires NoDup(a) && NoDup(b) && forall x :: x in b ==> x !in a
    ensures NoDup(a + b)
  {
    forall i, j | 0 <= i < j < |a + b| ensures (a + b)[i] != (a + b)[j] {
      if i < |a| <= j { assert a[i] in a && b[j - |a|] in b; }
    }
  }

  /** The column loop of the scan. */
  method SegmentRow(layout: array3<int>, tmp: array3<int>, idx: array3<int>, scratch: array3<int>, h: nat,
                    left: array<int>, top: array2<int>, m: nat, start: nat, ghost before: seq<Cell>,
                    ghost all: set<Cell>)
    returns (current: nat, ghost cells: seq<Cell>)
    requires Tensors(layout, tmp, idx, scratch) && m < layout.Length1
    requires Tracking(layout, tmp, left, top, all, before, h, m, 0)
    requires forall c :: c in all ==> InLayout(layout, c)
    requires Rings(layout, left, top, m, 0) && Widths(layout, tmp, h, m, 0) && Small(tmp, h, left.Length, NOWHERE)
    requires start == |before| && Stored(scratch, idx, h, before) && Emissions(before, left.Length, all)
    requires forall c :: c in before ==> InLayout(layout, c) && layout[c.h, c.m, c.n] == 0
    modifies layout, tmp, scratch, left, top
    ensures Rings(layout, left, top, m + 1, 0) && Widths(layout, tmp, h, m + 1, 0)
    ensures Small(tmp, h, left.Length, NOWHERE)
    ensures Erased(layout, cells) && OtherHeadsKept(tmp, h) && OtherHeadsKept(scratch, h)
    ensures current == |before + cells| && Stored(scratch, idx, h, before + cells)
    ensures Emissions(before + cells, left.Length, all)
    ensures forall c :: c in cells ==> InLayout(layout, c) && c.h == h
    ensures left.Length <= 2 ==> forall c :: c in cells ==> InLayout(layout, c) && old(layout[c.h, c.m, c.n]) != 0
    ensures Tracking(layout, tmp, left, top, all, before + cells, h, m + 1, 0)
  {
    hide Tracking, Emissions, Emission;
    current, cells := start, [];
    assert before + cells == before;
    for n := 0 to layout.Length2
      invariant Rings(layout, left, top, m, n) && Widths(layout, tmp, h, m, n) && Small(tmp, h, left.Length, NOWHERE)
      invariant Erased(layout, cells) && OtherHeadsKept(tmp, h) && OtherHeadsKept(scratch, h)
      invariant current == |before + cells| && Stored(scratch, idx, h, before + cells)
      invariant Emissions(before + cells, left.Length, all)
      invariant forall c :: c in cells ==> InLayout(layout, c) && c.h == h
      invariant left.Length <= 2 ==> forall c :: c in cells ==> InLayout(layout, c) && old(layout[c.h, c.m, c.n]) != 0
      invariant Tracking(layout, tmp, left, top, all, before + cells, h, m, n)
    {
      if layout[h, m, n] != 0 {
        ghost var more;
        current, more := Visit(layout, tmp, idx, scratch, h, left, top, m, n, current, before + cells, all);
        assert left.Length <= 2 ==> forall c :: c in more ==> c !in before + cells;
        EmissionsExtend(before + cells, more, left.Length, all, Cell(h, m, n));
        assert before + cells + more == before + (cells + more);
        cells := cells + more;
      } else {
        SkipTracks(layout, tmp, left, top, all, before + cells, h, m, n);
      }
    }
    NextRowTracks(layout, tmp, left, top, all, before + cells, h, m);
  }

  lemma SkipTracks(layout: array3<int>, tmp: array3<int>, left: array<int>, top: array2<int>, cells: set<Cell>,
                   done: seq<Cell>, h: nat, m: nat, n: nat)
    requires Tracking(layout, tmp, left, top, cells, done, h, m, n)
    requires m < layout.Length1 && n < layout.Length2 && layout[h, m, n] == 0
    ensures Tracking(layout, tmp, left, top, cells, done, h, m, n + 1)
  {
    hide Latest, Grown, Chained;
    assert Cell(h, m, n) !in cells;
    SkipLatest(left[left.Length - 1], Newest(top), cells, h, m, n);
    SkipGrown(Marks(tmp, h), cells, done, h, m, n);
  }

  /** At the start of a row no width of the row is known. */
  lemma NextRowTracks(layout: array3<int>, tmp: array3<int>, left: array<int>, top: array2<int>, cells: set<Cell>,
                      done: seq<Cell>, h: nat, m: nat)
    requires Tracking(layout, tmp, left, top, cells, done, h, m, layout.Length2) && top.Length1 == layout.Length2
    requires Widths(layout, tmp, h, m, layout.Length2)
    requires forall c :: c in cells ==> 0 <= c.n < layout.Length2
    ensures Tracking(layout, tmp, left, top, cells, done, h, m + 1, 0)
  {
    hide Latest, Grown, ColumnTail;
    NextRowLatest(left[left.Length - 1], Newest(top), cells, h, m);
    NextRowGrown(Marks(tmp, h), cells, done, h, m, layout.Length2);
    assert Mark(Marks(tmp, h), m + 1, Last(left[..])) == 0;
  }

  /** Every compact grid of at least w rows has lost a cell. */
  ghost predicate HeadTaken(done: seq<Cell>, cells: set<Cell>, h: int, w: nat) {
    forall ms, ns :: Compact(cells, h, ms, ns) && |ms| >= w ==> Touched(done, h, ms, ns)
  }

  lemma TakenGrows(done: seq<Cell>, more: seq<Cell>, cells: set<Cell>, h: int, w: nat)
    requires HeadTaken(done, cells, h, w) || HeadTaken(more, cells, h, w)
    ensures HeadTaken(done + more, cells, h, w)
  {
    forall ms, ns | Compact(cells, h, ms, ns) && |ms| >= w ensures Touched(done + more, h, ms, ns) {
      TouchedEarlier(done, more, h, ms, ns);
    }
  }

  lemma TrackingStarts(layout: array3<int>, tmp: array3<int>, left: array<int>, top: array2<int>, cells: set<Cell>,
                       h: nat)
    requires SameShape(tmp, layout) && h < layout.Length0
    requires left.Length == top.Length0 > 0 && top.Length1 == layout.Length2
    requires forall k :: 0 <= k < left.Length ==> left[k] == -1
    requires forall k, c :: 0 <= k < top.Length0 && 0 <= c < top.Length1 ==> top[k, c] == -1
    requires forall b, c ::
      0 <= b < layout.Length1 && 0 <= c < layout.Length2 ==> (layout[h, b, c] != 0 <==> Cell(h, b, c) in cells)
    ensures Tracking(layout, tmp, left, top, cells, [], h, 0, 0)
  {
    hide Compact;
    NothingVisited(Marks(tmp, h), cells, h);
    assert Last(left[..]) == -1;
    assert forall c :: 0 <= c < top.Length1 ==> Last(Columns(top)[c]) == -1;
  }

  lemma NothingVisited(s: seq<seq<int>>, cells: set<Cell>, h: int)
    ensures Grown(s, cells, [], h, 0, 0)
  {
  }

  /** Widths below w mean that no compact grid of w rows is whole. */
  lemma TrackingEnds(layout: array3<int>, tmp: array3<int>, left: array<int>, top: array2<int>, cells: set<Cell>,
                     done: seq<Cell>, h: nat)
    requires Tracking(layout, tmp, left, top, cells, done, h, layout.Length1, 0)
    requires Small(tmp, h, left.Length, NOWHERE) && forall c :: c in cells ==> InLayout(layout, c)
    ensures HeadTaken(done, cells, h, left.Length)
  {
    hide Latest, Chained;
    forall ms, ns | Compact(cells, h, ms, ns) && |ms| >= left.Length ensures Touched(done, h, ms, ns) {
      assert Cell(h, ms[|ms| - 1], ns[|ns| - 1]) in cells;
    }
  }

  /** One head of `segment_blocks`: a pass of width maxWidth over layout[h]. */
  method SegmentHead(layout: array3<int>, tmp: array3<int>, idx: array3<int>, scratch: array3<int>, h: nat,
                     maxWidth: nat, ghost all: set<Cell>)
    returns (current: nat, ghost cells: seq<Cell>)
    requires Tensors(layout, tmp, idx, scratch) && maxWidth > 0 && h < layout.Length0
    requires forall c :: c in all ==> InLayout(layout, c)
    requires forall b, c ::
      0 <= b < layout.Length1 && 0 <= c < layout.Length2 ==> (layout[h, b, c] != 0 <==> Cell(h, b, c) in all)
    requires forall m, n :: 0 <= m < tmp.Length1 && 0 <= n < tmp.Length2 ==> tmp[h, m, n] == 0
    modifies layout, tmp, scratch
    ensures Erased(layout, cells) && OtherHeadsKept(tmp, h) && OtherHeadsKept(scratch, h)
    ensures current == |cells| && Stored(scratch, idx, h, cells)
    ensures Emissions(cells, maxWidth, all)
    ensures forall c :: c in cells ==> InLayout(layout, c) && c.h == h
    ensures maxWidth <= 2 ==> forall c :: c in cells ==> InLayout(layout, c) && old(layout[c.h, c.m, c.n]) != 0
    ensures HeadTaken(cells, all, h, maxWidth)
  {
    hide Tracking, HeadTaken, Emissions;
    var left := new int[maxWidth](_ => -1);
    var top := new int[maxWidth, layout.Length2]((_, _) => -1);
    current, cells := 0, [];
    TrackingStarts(layout, tmp, left, top, all, h);
    NothingEmittedYet(maxWidth, all);
    for m := 0 to layout.Length1
      invariant Rings(layout, left, top, m, 0) && Widths(layout, tmp, h, m, 0) && Small(tmp, h, maxWidth, NOWHERE)
      invariant Erased(layout, cells) && OtherHeadsKept(tmp, h) && OtherHeadsKept(scratch, h)
      invariant current == |cells| && Stored(scratch, idx, h, cells)
      invariant Emissions(cells, maxWidth, all)
      invariant forall c :: c in cells ==> InLayout(layout, c) && c.h == h
      invariant maxWidth <= 2 ==> forall c :: c in cells ==> InLayout(layout, c) && old(layout[c.h, c.m, c.n]) != 0
      invariant Tracking(layout, tmp, left, top, all, cells, h, m, 0)
    {
      ghost var more;
      current, more := SegmentRow(layout, tmp, idx, scratch, h, left, top, m, current, cells, all);
      cells := cells + more;
    }
    TrackingEnds(layout, tmp, left, top, all, cells, h);
  }

  lemma NothingEmittedYet(w: nat, cells: set<Cell>)
    ensures Emissions([], w, cells)
  {
    NoBlocks(w, cells);
  }

  // ---------------------------------------------------------------------------------------------
  // Collecting the rows of a pass, and all passes
  // ---------------------------------------------------------------------------------------------

  /** The first `count` rows of scratch[h], clipped to the buffer as a tensor slice is. */
  method ReadScratch(scratch: array3<int>, h: nat, count: nat) returns (rows: seq<Row>)
    requires h < scratch.Length0 && scratch.Length2 == 4
    ensures |rows| == Min(count, scratch.Length1)
    ensures forall r :: 0 <= r < |rows| ==>
      rows[r] == Row(Cell(scratch[h, r, 0], scratch[h, r, 1], scratch[h, r, 2]), scratch[h, r, 3])
  {
    rows := [];
    for r := 0 to Min(count, scratch.Length1)
      invariant |rows| == r
      invariant forall j :: 0 <= j < r ==>
        rows[j] == Row(Cell(scratch[h, j, 0], scratch[h, j, 1], scratch[h, j, 2]), scratch[h, j, 3])
    {
      rows := rows + [Row(Cell(scratch[h, r, 0], scratch[h, r, 1], scratch[h, r, 2]), scratch[h, r, 3])];
    }
  }

  ghost function NumberAt(idx: array3<int>, c: Cell): int
    reads idx
  {
    if InLayout(idx, c) then idx[c.h, c.m, c.n] else -1
  }

  /** The cells with their block numbers. */
  ghost function Labelled(idx: array3<int>, cells: seq<Cell>): seq<Row>
    reads idx
  {
    seq(|cells|, k requires 0 <= k < |cells| reads idx => Row(cells[k], NumberAt(idx, cells[k])))
  }

  /** Distinct nonzero cells are no more than all nonzero cells. */
  lemma NoMoreThan<T>(some: seq<T>, all: seq<T>)
    requires NoDup(some) && forall x :: x in some ==> x in all
    ensures |some| <= |all|
  {
    var a, b := (set x | x in some), (set x | x in all);
    SetSize(some);
    SetSizeAtMost(all);
    assert a <= b;
    SubsetSize(a, b);
  }

  lemma SubsetSize<T>(a: set<T>, b: set<T>)
    requires a <= b
    ensures |a| <= |b|
  {
    assert b == a + (b - a);
  }

  lemma {:induction false} SetSize<T>(s: seq<T>)
    requires NoDup(s)
    ensures |set x | x in s| == |s|
  {
    if s != [] {
      var k := |s| - 1;
      SetSize(s[..k]);
      assert (set x | x in s) == (set x | x in s[..k]) + {s[k]};
    }
  }

  lemma {:induction false} SetSizeAtMost<T>(s: seq<T>)
    ensures |set x | x in s| <= |s|
  {
    if s != [] {
      var k := |s| - 1;
      SetSizeAtMost(s[..k]);
      assert (set x | x in s) == (set x | x in s[..k]) + {s[k]};
    }
  }

  /** Emissions of different heads do not interfere. */
  lemma EmissionsConcat(a: seq<Cell>, b: seq<Cell>, w: nat, cells: set<Cell>)
    requires Emissions(a, w, cells) && Emissions(b, w, cells)
    requires forall x, y :: x in a && y in b ==> x.h != y.h
    ensures Emissions(a + b, w, cells)
  {
    hide Blocks;
    BlocksConcat(a, b, w, cells);
    if w <= 2 { NoDupConcat(a, b); }
  }

  ghost function NonzeroSet(layout: array3<int>): set<Cell>
    reads layout
  {
    set c | c in Nonzero(layout)
  }

  /** Every compact grid of at least w rows has lost a cell. */
  ghost predicate GridsTaken(done: seq<Cell>, cells: set<Cell>, w: nat) {
    forall h: int :: HeadTaken(done, cells, h, w)
  }

  lemma AllHeadsTaken(done: seq<Cell>, cells: set<Cell>, heads: nat, w: nat)
    requires forall h: int :: 0 <= h < heads ==> HeadTaken(done, cells, h, w)
    requires forall c :: c in cells ==> 0 <= c.h < heads
    ensures GridsTaken(done, cells, w)
  {
    hide Touched;
    forall h: int ensures HeadTaken(done, cells, h, w) {
      forall ms, ns | Compact(cells, h, ms, ns) && |ms| >= w ensures Touched(done, h, ms, ns) {
        assert Cell(h, ms[0], ns[0]) in cells;
        assert HeadTaken(done, cells, h, w);
      }
    }
  }

  /** A single cell is a compact grid. */
  lemma SinglesTaken(done: seq<Cell>, cells: set<Cell>)
    requires GridsTaken(done, cells, 1) && forall c :: c in cells ==> c.m >= 0 && c.n >= 0
    ensures forall c :: c in cells ==> c in done
  {
    forall c | c in cells ensures c in done {
      assert HeadTaken(done, cells, c.h, 1) && Compact(cells, c.h, [c.m], [c.n]) && Touched(done, c.h, [c.m], [c.n]);
    }
  }

  /** The head loop of `segment_blocks`. */
  method SegmentHeads(layout: array3<int>, idx: array3<int>, scratch: array3<int>, maxWidth: nat)
    returns (counts: seq<nat>, ghost parts: seq<seq<Cell>>, ghost cells: seq<Cell>)
    requires layout != idx && scratch != layout && scratch != idx && SameShape(idx, layout)
    requires scratch.Length0 == layout.Length0 && scratch.Length2 == 4 && maxWidth > 0
    modifies layout, scratch
    ensures |counts| == |parts| == layout.Length0
    ensures forall a :: 0 <= a < |parts| ==> counts[a] == |parts[a]| && Stored(scratch, idx, a, parts[a])
    ensures cells == Flatten(parts)
    ensures forall a :: 0 <= a < |parts| ==> forall c :: c in parts[a] ==> c.h == a
    ensures Erased(layout, cells) && Emissions(cells, maxWidth, old(NonzeroSet(layout)))
    ensures forall c :: c in cells ==> InLayout(layout, c)
    ensures maxWidth <= 2 ==> forall c :: c in cells ==> InLayout(layout, c) && old(layout[c.h, c.m, c.n]) != 0
    ensures GridsTaken(cells, old(NonzeroSet(layout)), maxWidth)
  {
    hide HeadTaken, GridsTaken, Nonzero, Emissions;
    ghost var all := NonzeroSet(layout);
    NonzeroMeaning(layout);
    var tmp := new int[layout.Length0, layout.Length1, layout.Length2];
    ClearCells(tmp);
    counts, parts, cells := [], [], [];
    NothingEmittedYet(maxWidth, all);
    for h := 0 to layout.Length0
      invariant |counts| == |parts| == h
      invariant forall a :: 0 <= a < h ==> counts[a] == |parts[a]| && Stored(scratch, idx, a, parts[a])
      invariant cells == Flatten(parts)
      invariant forall a :: 0 <= a < h ==> forall c :: c in parts[a] ==> c.h == a
      invariant forall a, m, n ::
        h <= a < tmp.Length0 && 0 <= m < tmp.Length1 && 0 <= n < tmp.Length2 ==> tmp[a, m, n] == 0
      invariant Erased(layout, cells) && Emissions(cells, maxWidth, all)
      invariant forall c :: c in cells ==> InLayout(layout, c) && c.h < h
      invariant maxWidth <= 2 ==> forall c :: c in cells ==> InLayout(layout, c) && old(layout[c.h, c.m, c.n]) != 0
      invariant forall a: int :: 0 <= a < h ==> HeadTaken(cells, all, a, maxWidth)
    {
      var count;
      ghost var more;
      count, more := SegmentHead(layout, tmp, idx, scratch, h, maxWidth, all);
      EmissionsConcat(cells, more, maxWidth, all);
      forall a: int | 0 <= a <= h ensures HeadTaken(cells + more, all, a, maxWidth) {
        TakenGrows(cells, more, all, a, maxWidth);
      }
      counts := counts + [count];
      parts := parts + [more];
      assert parts[..h] == parts[..|parts| - 1];
      cells := cells + more;
    }
    AllHeadsTaken(cells, all, layout.Length0, maxWidth);
  }

  lemma NonzeroMeaning(layout: array3<int>)
    ensures forall c :: c in NonzeroSet(layout) <==> InLayout(layout, c) && layout[c.h, c.m, c.n] != 0
  {
    NonzeroUpToSpec(layout, layout.Length0);
  }

  ghost predicate Cleared(layout: array3<int>, h: nat)
    reads layout
  {
    forall a, m, n :: 0 <= a < h && a < layout.Length0 && 0 <= m < layout.Length1 && 0 <= n < layout.Length2 ==>
      layout[a, m, n] == 0
  }

  lemma {:induction false} PartSize<T>(parts: seq<seq<T>>, a: nat)
    requires a < |parts|
    ensures |parts[a]| <= |Flatten(parts)|
  {
    if a < |parts| - 1 { PartSize(parts[..|parts| - 1], a); }
  }

  /** Every list is short enough for the rows of one head. */
  ghost predicate Fits(parts: seq<seq<Cell>>, capacity: int) {
    forall a :: 0 <= a < |parts| ==> |parts[a]| <= capacity
  }

  /** The collecting loop of `segment_blocks`: the written rows of every head, in head order. */
  method CollectRows(idx: array3<int>, scratch: array3<int>, counts: seq<nat>, ghost parts: seq<seq<Cell>>)
    returns (rows: seq<Row>)
    requires scratch.Length2 == 4 && |counts| == |parts| == scratch.Length0
    requires forall a :: 0 <= a < |parts| ==> counts[a] == |parts[a]| && Stored(scratch, idx, a, parts[a])
    ensures Fits(parts, scratch.Length1) ==> rows == Labelled(idx, Flatten(parts))
  {
    rows := [];
    for h := 0 to scratch.Length0
      invariant Fits(parts, scratch.Length1) ==> rows == Labelled(idx, Flatten(parts[..h]))
    {
      assert parts[..h + 1][..h] == parts[..h];
      if counts[h] > 0 {
        var more := ReadScratch(scratch, h, counts[h]);
        if Fits(parts, scratch.Length1) {
          forall r | 0 <= r < |more| ensures more[r] == Labelled(idx, parts[h])[r] {
            assert InLayout(idx, parts[h][r]);
          }
          assert more == Labelled(idx, parts[h]);
        }
        rows := rows + more;
      } else {
        assert Flatten(parts[..h + 1]) == Flatten(parts[..h]);
      }
    }
    assert parts[..scratch.Length0] == parts;
  }

  /** `segment_blocks`: one pass over all heads, and the segment it appends to the result. */
  method SegmentBlocks(layout: array3<int>, idx: array3<int>, scratch: array3<int>, maxWidth: nat)
    returns (ret: seq<Segment>, ghost parts: seq<seq<Cell>>, ghost cells: seq<Cell>)
    requires layout != idx && scratch != layout && scratch != idx && SameShape(idx, layout)
    requires scratch.Length0 == layout.Length0 && scratch.Length2 == 4 && maxWidth > 0
    modifies layout, scratch
    ensures |parts| == layout.Length0 && cells == Flatten(parts)
    ensures forall a :: 0 <= a < |parts| ==> forall c :: c in parts[a] ==> c.h == a
    ensures Erased(layout, cells) && Emissions(cells, maxWidth, old(NonzeroSet(layout)))
    ensures forall c :: c in cells ==> InLayout(layout, c)
    ensures maxWidth <= 2 ==> forall c :: c in cells ==> InLayout(layout, c) && old(layout[c.h, c.m, c.n]) != 0
    ensures GridsTaken(cells, old(NonzeroSet(layout)), maxWidth)
    ensures maxWidth == 1 ==> Cleared(layout, layout.Length0)
    ensures Fits(parts, scratch.Length1) ==>
      ret == if cells == [] then [] else [Segment(maxWidth, Labelled(idx, cells))]
  {
    hide GridsTaken, NonzeroSet, Emissions;
    NonzeroMeaning(layout);
    ghost var all := NonzeroSet(layout);
    var counts;
    counts, parts, cells := SegmentHeads(layout, idx, scratch, maxWidth);
    if maxWidth == 1 { SinglesTaken(cells, all); }
    var rows := CollectRows(idx, scratch, counts, parts);
    ret := if rows != [] then [Segment(maxWidth, rows)] else [];
  }

  ghost function AllRows(ret: seq<Segment>): seq<Row> {
    if ret == [] then [] else AllRows(ret[..|ret| - 1]) + ret[|ret| - 1].rows
  }

  ghost function CellsOf(rows: seq<Row>): seq<Cell> {
    seq(|rows|, k requires 0 <= k < |rows| => rows[k].cell)
  }

  // ---------------------------------------------------------------------------------------------
  // All passes
  // ---------------------------------------------------------------------------------------------

  /** w is one of start, start / 2, ..., 1. */
  ghost predicate IsHalving(start: int, w: int)
    decreases start
  {
    start > 0 && (w == start || IsHalving(start / 2, w))
  }

  /** Between a halving and the next one there is none. */
  lemma {:induction false} NoneBetween(start: int, w: int, v: int)
    requires IsHalving(start, w) && IsHalving(start, v) && v < w
    ensures 0 < v <= w / 2 && IsHalving(w / 2, v)
    decreases start
  {
    HalvingBounds(start, w);
    HalvingBounds(start / 2, v);
    if w != start { NoneBetween(start / 2, w, v); }
  }

  lemma {:induction false} HalvingBounds(start: int, w: int)
    requires IsHalving(start, w)
    ensures 0 < w <= start
    decreases start
  {
    if w != start { HalvingBounds(start / 2, w); }
  }

  lemma {:induction false} NextHalving(start: int, w: int)
    requires IsHalving(start, w) && w / 2 > 0
    ensures IsHalving(start, w / 2)
    decreases start
  {
    if w != start { NextHalving(start / 2, w); }
  }

  /** The cells returned in segments of width w. */
  ghost function OfWidth(ret: seq<Segment>, w: int): seq<Cell> {
    if ret == [] then []
    else
      OfWidth(ret[..|ret| - 1], w) + if ret[|ret| - 1].width == w then CellsOf(ret[|ret| - 1].rows) else []
  }

  /** The cells returned in segments wider than w. */
  ghost function Wider(ret: seq<Segment>, w: int): seq<Cell> {
    if ret == [] then []
    else Wider(ret[..|ret| - 1], w) + if ret[|ret| - 1].width > w then CellsOf(ret[|ret| - 1].rows) else []
  }

  /** The nonzero cells that no wider segment has taken. */
  ghost function Remaining(ret: seq<Segment>, w: int, nonzero: seq<Cell>): set<Cell> {
    set c | c in nonzero && c !in Wider(ret, w)
  }

  /** A nonzero block carries its number; a cell without a block carries 0. */
  ghost predicate HasNumber(row: Row, nonzero: seq<Cell>) {
    if row.cell in nonzero then exists k :: 0 <= k < |nonzero| && nonzero[k] == row.cell && row.id == k
    else row.id == 0
  }

  /** Segments are not empty, and their widths are among start, start / 2, ... down to below which all passes are still
      to come, in falling order. */
  ghost predicate FallingWidths(ret: seq<Segment>, start: int, below: int) {
    (forall k :: 0 <= k < |ret| ==> ret[k].rows != [] && IsHalving(start, ret[k].width) && ret[k].width > below) &&
    forall j, k :: 0 <= j < k < |ret| ==> ret[j].width > ret[k].width
  }

  /** The pass of width w, if it has run: every compact grid of at least w rows, of the blocks no wider segment took,
      has lost a cell to it. */
  ghost predicate PassTaken(ret: seq<Segment>, w: int, nonzero: seq<Cell>) {
    w > 0 && GridsTaken(OfWidth(ret, w), Remaining(ret, w, nonzero), w)
  }

  /** The result of the passes wider than `below`, for a layout with the given nonzero cells. */
  ghost predicate Segmentation(ret: seq<Segment>, start: int, below: int, nonzero: seq<Cell>) {
    FallingWidths(ret, start, below) &&
    (forall k :: 0 <= k < |ret| ==>
      ret[k].width > 0 && Blocks(CellsOf(ret[k].rows), ret[k].width, Remaining(ret, ret[k].width, nonzero)) &&
      (ret[k].width <= 2 ==> NoDup(CellsOf(ret[k].rows)))) &&
    (forall k :: 0 <= k < |AllRows(ret)| ==> HasNumber(AllRows(ret)[k], nonzero)) &&
    forall w :: IsHalving(start, w) && w > below ==> PassTaken(ret, w, nonzero)
  }

  lemma CellsOfConcat(a: seq<Row>, b: seq<Row>)
    ensures CellsOf(a + b) == CellsOf(a) + CellsOf(b)
  {
  }

  lemma {:induction false} WiderIsAll(ret: seq<Segment>, w: int)
    requires forall k :: 0 <= k < |ret| ==> ret[k].width > w
    ensures Wider(ret, w) == CellsOf(AllRows(ret))
  {
    if ret != [] {
      hide CellsOf;
      var n := |ret| - 1;
      WiderIsAll(ret[..n], w);
      CellsOfConcat(AllRows(ret[..n]), ret[n].rows);
    } else {
      assert AllRows(ret) == [];
    }
  }

  lemma {:induction false} NoneOfWidth(ret: seq<Segment>, w: int)
    requires forall k :: 0 <= k < |ret| ==> ret[k].width > w
    ensures OfWidth(ret, w) == []
  {
    hide CellsOf;
    if ret != [] { NoneOfWidth(ret[..|ret| - 1], w); }
  }

  /** A narrower segment changes nothing for the wider ones. */
  lemma NarrowerAdded(ret: seq<Segment>, more: Segment, w: int)
    requires more.width < w
    ensures OfWidth(ret + [more], w) == OfWidth(ret, w) && Wider(ret + [more], w) == Wider(ret, w)
  {
    assert (ret + [more])[..|ret|] == ret;
  }

  lemma PassAdded(ret: seq<Segment>, more: Segment, nonzero: seq<Cell>, w: int)
    requires (forall k :: 0 <= k < |ret| ==> ret[k].width > more.width) && w == more.width
    ensures OfWidth(ret + [more], w) == CellsOf(more.rows)
    ensures Remaining(ret + [more], w, nonzero) == Remaining(ret, w, nonzero)
    ensures AllRows(ret + [more]) == AllRows(ret) + more.rows
  {
    assert (ret + [more])[..|ret|] == ret;
    NoneOfWidth(ret, w);
  }

  /** What a pass of the given width, over the blocks that remain, adds to the segmentation. */
  lemma PassExtends(ret: seq<Segment>, rows: seq<Row>, start: int, width: int, nonzero: seq<Cell>)
    requires Segmentation(ret, start, width, nonzero) && IsHalving(start, width) && width > 0
    requires Emitted(CellsOf(rows), width, Remaining(ret, width, nonzero))
    requires forall k :: 0 <= k < |rows| ==> HasNumber(rows[k], nonzero)
    ensures Segmentation(if rows == [] then ret else ret + [Segment(width, rows)], start, width / 2, nonzero)
  {
    hide IsHalving, Blocks, GridsTaken, HasNumber, OfWidth, Wider, Remaining, AllRows;
    var more := Segment(width, rows);
    var next := if rows == [] then ret else ret + [more];
    NoneOfWidth(ret, width);
    PassAdded(ret, more, nonzero, width);
    forall w | w > width
      ensures OfWidth(next, w) == OfWidth(ret, w) && Remaining(next, w, nonzero) == Remaining(ret, w, nonzero)
    {
      NarrowerAdded(ret, more, w);
      SameRemaining(ret, next, w, nonzero);
    }
    forall w | IsHalving(start, w) && w > width / 2 ensures PassTaken(next, w, nonzero) {
      if w < width { NoneBetween(start, width, w); }
    }
  }

  lemma SameRemaining(ret: seq<Segment>, next: seq<Segment>, w: int, nonzero: seq<Cell>)
    requires Wider(next, w) == Wider(ret, w)
    ensures Remaining(next, w, nonzero) == Remaining(ret, w, nonzero)
  {
  }

  /** What one pass emits from the given nonzero cells. */
  ghost predicate Emitted(emitted: seq<Cell>, w: int, cells: set<Cell>) {
    w > 0 && Blocks(emitted, w, cells) && (w <= 2 ==> NoDup(emitted)) && GridsTaken(emitted, cells, w)
  }

  /** Emitting every numbered cell once is a permutation of the numbering. */
  lemma LabelledIsNumbered(idx: array3<int>, cells: seq<Cell>, order: seq<Cell>)
    requires Numbers(idx, order) && NoDup(cells) && NoDup(order)
    requires forall c :: c in cells <==> c in order
    ensures multiset(Labelled(idx, cells)) == multiset(Numbered(order))
  {
    var a, b := Labelled(idx, cells), Numbered(order);
    forall r ensures r in a <==> r in b {
      if r in a {
        var i :| 0 <= i < |a| && a[i] == r;
        assert cells[i] in order;
        var k :| 0 <= k < |order| && order[k] == cells[i];
        assert b[k] == r;
      }
      if r in b {
        var k :| 0 <= k < |b| && b[k] == r;
        assert order[k] in cells;
        var i :| 0 <= i < |cells| && cells[i] == order[k];
        assert a[i] == r;
      }
    }
    forall r ensures multiset(a)[r] == multiset(b)[r] {
      CountOnce(a, r);
      CountOnce(b, r);
    }
  }

  lemma LabelledConcat(idx: array3<int>, a: seq<Cell>, b: seq<Cell>)
    ensures Labelled(idx, a + b) == Labelled(idx, a) + Labelled(idx, b)
    ensures CellsOf(Labelled(idx, a)) == a
  {
  }

  lemma LabelledHasNumber(idx: array3<int>, cells: seq<Cell>, order: seq<Cell>)
    requires Numbers(idx, order) && forall c :: c in cells ==> InLayout(idx, c)
    ensures forall k :: 0 <= k < |cells| ==> HasNumber(Labelled(idx, cells)[k], order)
  {
    forall k | 0 <= k < |cells| ensures HasNumber(Labelled(idx, cells)[k], order) {
      assert cells[k] in cells;
      if cells[k] in order {
        var j :| 0 <= j < |order| && order[j] == cells[k];
        assert NumberAt(idx, order[j]) == j;
      }
    }
  }

  /** The passes so far, of which those wider than `width` have run. */
  ghost predicate Progress(ret: seq<Segment>, parts: seq<seq<Cell>>, cells: seq<Cell>, idx: array3<int>, start: int,
                           width: int, capacity: int, order: seq<Cell>)
    reads idx
  {
    cells == Flatten(parts) &&
    (Fits(parts, capacity) ==> AllRows(ret) == Labelled(idx, cells) && Segmentation(ret, start, width, order))
  }

  lemma NothingDone(idx: array3<int>, start: int, capacity: int, order: seq<Cell>)
    ensures Progress([], [], [], idx, start, start, capacity, order) && Fits([], capacity)
  {
    forall w | IsHalving(start, w) ensures w <= start { HalvingBounds(start, w); }
  }

  lemma FitsBoth(parts: seq<seq<Cell>>, heads: seq<seq<Cell>>, capacity: int)
    ensures Fits(parts + heads, capacity) <==> Fits(parts, capacity) && Fits(heads, capacity)
  {
    assert forall a :: 0 <= a < |heads| ==> (parts + heads)[|parts| + a] == heads[a];
    assert forall a :: 0 <= a < |parts| ==> (parts + heads)[a] == parts[a];
  }

  lemma RemainingIs(ret: seq<Segment>, start: int, width: int, cells: seq<Cell>, order: seq<Cell>)
    requires FallingWidths(ret, start, width) && CellsOf(AllRows(ret)) == cells
    ensures Remaining(ret, width, order) == set c | c in order && c !in cells
  {
    WiderIsAll(ret, width);
  }

  /** One more pass. */
  lemma ProgressStep(ret: seq<Segment>, more: seq<Segment>, parts: seq<seq<Cell>>, heads: seq<seq<Cell>>,
                     cells: seq<Cell>, idx: array3<int>, start: int, width: nat, capacity: int, order: seq<Cell>,
                     remaining: set<Cell>)
    requires Progress(ret, parts, cells, idx, start, width, capacity, order) && IsHalving(start, width) && width > 0
    requires var emitted := Flatten(heads);
      (Fits(heads, capacity) ==> more == if emitted == [] then [] else [Segment(width, Labelled(idx, emitted))]) &&
      Emitted(emitted, width, remaining) && forall c :: c in emitted ==> InLayout(idx, c)
    requires remaining == (set c | c in order && c !in cells) && Numbers(idx, order)
    ensures Progress(ret + more, parts + heads, cells + Flatten(heads), idx, start, width / 2, capacity, order)
    ensures Fits(parts + heads, capacity) <==> Fits(parts, capacity) && Fits(heads, capacity)
  {
    hide IsHalving, Emitted, Numbers, HasNumber, Fits, Flatten, InLayout, Segmentation;
    var emitted := Flatten(heads);
    FlattenConcat(parts, heads);
    FitsBoth(parts, heads, capacity);
    if Fits(parts + heads, capacity) {
      var rows := Labelled(idx, emitted);
      LabelledConcat(idx, cells, emitted);
      LabelledConcat(idx, emitted, []);
      LabelledHasNumber(idx, emitted, order);
      SegmentationFalls(ret, start, width, order);
      RemainingIs(ret, start, width, cells, order);
      PassExtends(ret, rows, start, width, order);
      if emitted == [] {
        assert rows == [] && ret + more == ret && cells + emitted == cells;
      } else {
        AllRowsAdded(ret, Segment(width, rows));
      }
    }
  }

  lemma SegmentationFalls(ret: seq<Segment>, start: int, below: int, order: seq<Cell>)
    requires Segmentation(ret, start, below, order)
    ensures FallingWidths(ret, start, below)
  {
  }

  lemma AllRowsAdded(ret: seq<Segment>, more: Segment)
    ensures AllRows(ret + [more]) == AllRows(ret) + more.rows
  {
    assert (ret + [more])[..|ret|] == ret;
  }

  /** `sdd_segment`. The passes of widths startWidth, startWidth / 2, ..., 1 together emit every nonzero block and leave
      the layout all zero; the emissions are given pass by pass and, within a pass, head by head. Unless some head
      outgrew `scratch` in a pass, the result is a segmentation: segments in falling order of these widths, each a list
      of square grids of its width, with the numbers of their blocks, and no pass overlooked a compact grid of its
      width. For start widths 1 and 2 no head outgrows `scratch`, and the rows returned are a permutation of the
      numbered nonzero blocks. */
  method SddSegment(layout: array3<int>, startWidth: int) returns (ret: seq<Segment>, ghost parts: seq<seq<Cell>>)
    requires NonNegative(layout)
    modifies layout
    ensures forall c :: c in Flatten(parts) ==> InLayout(layout, c)
    ensures startWidth >= 1 ==> Cleared(layout, layout.Length0)
    ensures startWidth >= 1 ==> forall c :: c in old(Nonzero(layout)) ==> c in Flatten(parts)
    ensures Fits(parts, old(SumUpTo(layout, layout.Length0))) ==>
      CellsOf(AllRows(ret)) == Flatten(parts) && Segmentation(ret, startWidth, 0, old(Nonzero(layout)))
    ensures startWidth <= 2 ==> Fits(parts, old(SumUpTo(layout, layout.Length0)))
    ensures 1 <= startWidth <= 2 ==> multiset(AllRows(ret)) == multiset(Numbered(old(Nonzero(layout))))
  {
    hide AllRows, Flatten, NonzeroUpTo, SumUpTo, Labelled, NonNegative, Fits, Emissions, Segmentation, IsHalving,
      GridsTaken, Progress, Emitted;
    var idx := NumberBlocks(layout);
    var total := SumLayout(layout);
    ghost var order := Nonzero(layout);
    NonzeroUpToSpec(layout, layout.Length0);
    SumBound(layout, layout.Length0);
    SortedIsNoDup(order);
    var scratch := new int[layout.Length0, total, 4];
    ret, parts := [], [];
    ghost var cells: seq<Cell> := [];
    NothingDone(idx, startWidth, total, order);
    FirstHalving(startWidth);
    var width := startWidth;
    while width > 0
      invariant width <= startWidth && (startWidth > 0 ==> width >= 0) && (width > 0 ==> IsHalving(startWidth, width))
      invariant Progress(ret, parts, cells, idx, startWidth, width, total, order)
      invariant forall c :: c in cells ==> InLayout(layout, c)
      invariant Erased(layout, cells) && Numbers(idx, order)
      invariant width <= 0 && startWidth >= 1 ==> Cleared(layout, layout.Length0)
      invariant startWidth <= 2 ==> NoDup(cells) && (forall c :: c in cells ==> c in order) && Fits(parts, total)
    {
      var more;
      ghost var heads, emitted;
      ghost var remaining := NonzeroSet(layout);
      NonzeroMeaning(layout);
      assert remaining == set c | c in order && c !in cells;
      more, heads, emitted := SegmentBlocks(layout, idx, scratch, width);
      if startWidth <= 2 {
        EmissionsAreNew(emitted, width, remaining, cells);
        NoMoreThan(emitted, order);
        AllFit(heads, total);
      }
      PassEmitted(emitted, width, remaining);
      ProgressStep(ret, more, parts, heads, cells, idx, startWidth, width, total, order, remaining);
      ret, parts, cells := ret + more, parts + heads, cells + emitted;
      if width / 2 > 0 { NextHalving(startWidth, width); }
      width := width / 2;
    }
    if startWidth >= 1 {
      forall c | c in order ensures c in cells {
        assert layout[c.h, c.m, c.n] == 0 && Cell(c.h, c.m, c.n) == c;
      }
    }
    if 1 <= startWidth <= 2 { LabelledIsNumbered(idx, cells, order); }
    ProgressEnds(ret, parts, cells, idx, startWidth, width, total, order);
  }

  lemma FirstHalving(start: int)
    ensures start > 0 ==> IsHalving(start, start)
  {
  }

  lemma PassEmitted(emitted: seq<Cell>, w: nat, cells: set<Cell>)
    requires w > 0 && Emissions(emitted, w, cells) && GridsTaken(emitted, cells, w)
    ensures Emitted(emitted, w, cells)
  {
  }

  /** Up to width 2 a pass emits cells that are left, once. */
  lemma EmissionsAreNew(emitted: seq<Cell>, w: nat, remaining: set<Cell>, cells: seq<Cell>)
    requires w <= 2 && Emissions(emitted, w, remaining) && NoDup(cells)
    requires forall c :: c in emitted ==> c in remaining && c !in cells
    ensures NoDup(emitted) && NoDup(cells + emitted)
  {
    NoDupConcat(cells, emitted);
  }

  lemma ProgressEnds(ret: seq<Segment>, parts: seq<seq<Cell>>, cells: seq<Cell>, idx: array3<int>, start: int,
                     width: int, capacity: int, order: seq<Cell>)
    requires Progress(ret, parts, cells, idx, start, width, capacity, order)
    requires width <= 0 && (start > 0 ==> width == 0)
    ensures cells == Flatten(parts)
    ensures Fits(parts, capacity) ==>
      AllRows(ret) == Labelled(idx, cells) && CellsOf(AllRows(ret)) == cells && Segmentation(ret, start, 0, order)
  {
    if Fits(parts, capacity) {
      LabelledConcat(idx, cells, []);
      if ret != [] { HalvingBounds(start, ret[0].width); }
    }
  }

  lemma AllFit(parts: seq<seq<Cell>>, capacity: int)
    requires |Flatten(parts)| <= capacity
    ensures Fits(parts, capacity)
  {
    forall a | 0 <= a < |parts| ensures |parts[a]| <= capacity { PartSize(parts, a); }
  }

  lemma SortedIsNoDup(s: seq<Cell>)
    requires Sorted(s)
    ensures NoDup(s)
  {
    forall i, j | 0 <= i < j < |s| ensures s[i] != s[j] { assert Before(s[i], s[j]); }
  }
}
