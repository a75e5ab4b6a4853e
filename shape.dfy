/**
 * ShapeGrower: `generate_contiguous_shape` grows one 4-connected cluster cell by cell from (0, 0),
 * then shifts it so that its smallest row and column are 0 and sorts it row-major.
 */
module ShapeGrower {
  import opened Cells
  import opened Random

  /**
   * The cells of `order` were added one at a time, each next to an earlier one: a witness that the
   * set of them is 4-connected.
   */
  ghost predicate GrownByAdjacency(order: seq<Cell>)
  {
    forall i :: 0 < i < |order| ==> TouchesEarlier(order, i)
  }

  /** Cell i of `order` is next to some cell listed before it. */
  ghost predicate TouchesEarlier(order: seq<Cell>, i: nat)
    requires i < |order|
  {
    exists j :: 0 <= j < i && Adjacent(order[j], order[i])
  }

  /** A shape in local coordinates: no negative coordinate, and both row 0 and column 0 used. */
  predicate Normalized(shape: seq<Cell>)
  {
    && (forall i :: 0 <= i < |shape| ==> shape[i].row >= 0 && shape[i].col >= 0)
    && (exists i :: 0 <= i < |shape| && shape[i].row == 0)
    && (exists i :: 0 <= i < |shape| && shape[i].col == 0)
  }

  /** A cell of the shape at the largest row: the cell below it is outside the shape. */
  lemma {:induction false} LowestCell(cells: set<Cell>) returns (m: Cell)
    requires cells != {}
    ensures m in cells && forall c :: c in cells ==> c.row <= m.row
    decreases |cells|
  {
    var x :| x in cells;
    if cells == {x} {
      m := x;
    } else {
      var m' := LowestCell(cells - {x});
      m := if x.row > m'.row then x else m';
    }
  }

  /**
   * The candidate list of one growth step: every neighbour of a shape cell that is not itself in
   * the shape, once per (cell, direction) pair, in the shape's iteration order.
   */
  method Frontier(cells: set<Cell>) returns (candidates: seq<Cell>)
    ensures forall c :: c in candidates ==> c !in cells && exists d :: d in cells && Adjacent(d, c)
    ensures forall d, k :: d in cells && 0 <= k < 4 && Neighbors(d)[k] !in cells ==> Neighbors(d)[k] in candidates
  {
    candidates := [];
    var rest := cells;
    while rest != {}
      invariant rest <= cells
      invariant forall c :: c in candidates ==> c !in cells && exists d :: d in cells && Adjacent(d, c)
      invariant forall d, k :: d in cells - rest && 0 <= k < 4 && Neighbors(d)[k] !in cells ==> Neighbors(d)[k] in candidates
      decreases |rest|
    {
      var d :| d in rest;
      var nbrs := Neighbors(d);
      for k := 0 to 4
        invariant forall c :: c in candidates ==> c !in cells && exists d :: d in cells && Adjacent(d, c)
        invariant forall d', k' :: d' in cells - rest && 0 <= k' < 4 && Neighbors(d')[k'] !in cells ==> Neighbors(d')[k'] in candidates
        invariant forall k' :: 0 <= k' < k && nbrs[k'] !in cells ==> nbrs[k'] in candidates
      {
        var neighbor := nbrs[k];
        if neighbor !in cells {
          candidates := candidates + [neighbor];
        }
      }
      rest := rest - {d};
    }
  }

  /** While the shape is non-empty the candidate list is non-empty: the `break` of `generate_contiguous_shape` never runs. */
  lemma FrontierNotEmpty(cells: set<Cell>, candidates: seq<Cell>)
    requires cells != {}
    requires forall d, k :: d in cells && 0 <= k < 4 && Neighbors(d)[k] !in cells ==> Neighbors(d)[k] in candidates
    ensures |candidates| > 0
  {
    var m := LowestCell(cells);
    assert Neighbors(m)[1] !in cells;
  }

  function MinRow(xs: seq<Cell>): (m: int)
    requires |xs| > 0
    ensures forall i :: 0 <= i < |xs| ==> m <= xs[i].row
    ensures exists i :: 0 <= i < |xs| && xs[i].row == m
  {
    if |xs| == 1 then xs[0].row
    else
      var m := MinRow(xs[1..]);
      if xs[0].row < m then xs[0].row else m
  }

  function MinCol(xs: seq<Cell>): (m: int)
    requires |xs| > 0
    ensures forall i :: 0 <= i < |xs| ==> m <= xs[i].col
    ensures exists i :: 0 <= i < |xs| && xs[i].col == m
  {
    if |xs| == 1 then xs[0].col
    else
      var m := MinCol(xs[1..]);
      if xs[0].col < m then xs[0].col else m
  }

  /** Every cell moved by (-min row, -min col). */
  function Normalize(xs: seq<Cell>): (ys: seq<Cell>)
    requires |xs| > 0
    ensures |ys| == |xs| && Normalized(ys)
  {
    var off := Cell(-MinRow(xs), -MinCol(xs));
    var ys := seq(|xs|, i requires 0 <= i < |xs| => Shift(xs[i], off));
    assert Normalized(ys) by {
      var i :| 0 <= i < |xs| && xs[i].row == MinRow(xs);
      assert ys[i].row == 0;
      var j :| 0 <= j < |xs| && xs[j].col == MinCol(xs);
      assert ys[j].col == 0;
    }
    ys
  }

  /** A cell below every cell of a sorted list can go in front of it. */
  lemma ConsSorted(x: Cell, r: seq<Cell>)
    requires StrictlyRowMajor(r) && forall y :: y in r ==> RowMajorLess(x, y)
    ensures StrictlyRowMajor([x] + r)
  {
    forall i, j | 0 <= i < j < |[x] + r| ensures RowMajorLess(([x] + r)[i], ([x] + r)[j]) {
      assert ([x] + r)[j] == r[j - 1];
      if i > 0 {
        assert ([x] + r)[i] == r[i - 1];
      }
    }
  }

  /** Insertion of one cell into a row-major sorted list, before the first cell not smaller than it. */
  function Insert(c: Cell, s: seq<Cell>): (r: seq<Cell>)
    ensures multiset(r) == multiset(s) + multiset{c}
    ensures StrictlyRowMajor(s) && c !in s ==> StrictlyRowMajor(r)
  {
    if |s| == 0 || !RowMajorLess(s[0], c) then [c] + s
    else
      var r' := Insert(c, s[1..]);
      assert s == [s[0]] + s[1..];
      assert StrictlyRowMajor(s) && c !in s ==> StrictlyRowMajor([s[0]] + r') by {
        if StrictlyRowMajor(s) && c !in s {
          forall x | x in r' ensures RowMajorLess(s[0], x) {
            assert x in multiset(r');
          }
          ConsSorted(s[0], r');
        }
      }
      [s[0]] + r'
  }

  /** Python's `list.sort` on (row, col) keys, as an insertion sort. */
  function SortRowMajor(xs: seq<Cell>): (r: seq<Cell>)
    ensures multiset(r) == multiset(xs)
    ensures Distinct(xs) ==> StrictlyRowMajor(r)
  {
    if |xs| == 0 then []
    else
      var rest := SortRowMajor(xs[1..]);
      assert xs == [xs[0]] + xs[1..];
      assert Distinct(xs) ==> xs[0] !in rest && Distinct(xs[1..]) by {
        if Distinct(xs) {
          DistinctTail(xs);
          assert xs[0] !in multiset(xs[1..]);
        }
      }
      Insert(xs[0], rest)
  }

  /** The tail of a list without duplicates has none, and does not hold the head. */
  lemma DistinctTail(xs: seq<Cell>)
    requires |xs| > 0 && Distinct(xs)
    ensures Distinct(xs[1..]) && xs[0] !in xs[1..]
  {
  }

  /**
   * Two strictly row-major lists with the same cells are equal: the sorted shape depends only on
   * the set of cells, not on the order in which Python iterates that set.
   */
  lemma {:induction false} StrictlyRowMajorUnique(a: seq<Cell>, b: seq<Cell>)
    requires StrictlyRowMajor(a) && StrictlyRowMajor(b)
    requires forall c :: c in a <==> c in b
    ensures a == b
    decreases |a|
  {
    assert |a| > 0 ==> a[0] in b;
    assert |b| > 0 ==> b[0] in a;
    if |a| > 0 && |b| > 0 {
      assert forall x :: x in a ==> x == a[0] || RowMajorLess(a[0], x);
      assert forall x :: x in b ==> x == b[0] || RowMajorLess(b[0], x);
      assert a[0] == b[0];
      forall c ensures c in a[1..] <==> c in b[1..] {
        if c in a[1..] {
          var i :| 1 <= i < |a| && a[i] == c;
          assert RowMajorLess(a[0], c);
          assert c in b && c != b[0];
        }
        if c in b[1..] {
          var i :| 1 <= i < |b| && b[i] == c;
          assert RowMajorLess(b[0], c);
          assert c in a && c != a[0];
        }
      }
      StrictlyRowMajorUnique(a[1..], b[1..]);
      assert a == [a[0]] + a[1..] && b == [b[0]] + b[1..];
    }
  }

  /** Growth by adjacency survives moving every cell by the same offset. */
  lemma ShiftKeepsGrowth(order: seq<Cell>, off: Cell, moved: seq<Cell>)
    requires GrownByAdjacency(order)
    requires |moved| == |order| && forall i :: 0 <= i < |order| ==> moved[i] == Shift(order[i], off)
    ensures GrownByAdjacency(moved)
  {
    forall i | 0 < i < |moved| ensures TouchesEarlier(moved, i) {
      assert TouchesEarlier(order, i);
      var j :| 0 <= j < i && Adjacent(order[j], order[i]);
      assert 0 <= j < i && Adjacent(moved[j], moved[i]);
    }
  }

  /**
   * The cells form one 4-connected cluster: some order lists exactly them, each cell next to an
   * earlier one.
   */
  ghost predicate Contiguous(cells: seq<Cell>)
  {
    exists order :: GrownByAdjacency(order) && |order| == |cells| && forall c :: c in order <==> c in cells
  }

  /** Moving every cell by the same offset keeps a cluster contiguous and keeps row-major order. */
  lemma ShiftContiguous(cells: seq<Cell>, off: Cell, moved: seq<Cell>)
    requires |moved| == |cells| && forall i :: 0 <= i < |cells| ==> moved[i] == Shift(cells[i], off)
    ensures Contiguous(cells) ==> Contiguous(moved)
    ensures StrictlyRowMajor(cells) ==> StrictlyRowMajor(moved)
  {
    if Contiguous(cells) {
      var order :| GrownByAdjacency(order) && |order| == |cells| && forall c :: c in order <==> c in cells;
      var movedOrder := seq(|order|, i requires 0 <= i < |order| => Shift(order[i], off));
      ShiftKeepsGrowth(order, off, movedOrder);
      forall c ensures c in movedOrder <==> c in moved {
        if c in movedOrder {
          var i :| 0 <= i < |movedOrder| && movedOrder[i] == c;
          assert order[i] in cells;
          var k :| 0 <= k < |cells| && cells[k] == order[i];
          assert moved[k] == c;
        }
        if c in moved {
          var k :| 0 <= k < |moved| && moved[k] == c;
          assert cells[k] in order;
          var i :| 0 <= i < |order| && order[i] == cells[k];
          assert movedOrder[i] == c;
        }
      }
    }
  }

  lemma GrowStep(order: seq<Cell>, d: Cell, pick: Cell)
    requires GrownByAdjacency(order) && d in order && Adjacent(d, pick)
    ensures GrownByAdjacency(order + [pick])
  {
    var j :| 0 <= j < |order| && order[j] == d;
    var o' := order + [pick];
    forall i | 0 < i < |o'| ensures TouchesEarlier(o', i) {
      if i < |order| {
        assert TouchesEarlier(order, i);
        var j' :| 0 <= j' < i && Adjacent(order[j'], order[i]);
        assert 0 <= j' < i && Adjacent(o'[j'], o'[i]);
      } else {
        assert 0 <= j < i && Adjacent(o'[j], o'[i]);
      }
    }
  }

  /**
   * `generate_contiguous_shape(num_cells)`: exactly num_cells distinct cells (one when num_cells is 0,
   * since the loop never runs), normalised, strictly row-major, and 4-connected: `growth` lists the
   * same cells in the order they were added, each next to an earlier one. One draw per added cell.
   */
  method GenerateContiguousShape(numCells: nat, rng: Stream, pos: nat) returns (shape: seq<Cell>, next: nat, ghost growth: seq<Cell>)
    ensures |shape| == if numCells == 0 then 1 else numCells
    ensures StrictlyRowMajor(shape) && Normalized(shape)
    ensures shape[0].row == 0
    ensures GrownByAdjacency(growth) && |growth| == |shape| && forall c :: c in growth <==> c in shape
    ensures next == pos + |shape| - 1
  {
    var cells := {Cell(0, 0)};
    ghost var order := [Cell(0, 0)];
    next := pos;
    while |cells| < numCells
      invariant |order| == |cells| >= 1 && (forall c :: c in order <==> c in cells) && GrownByAdjacency(order)
      invariant |cells| <= if numCells == 0 then 1 else numCells
      invariant next == pos + |cells| - 1
      decreases numCells - |cells|
    {
      var candidates := Frontier(cells);
      FrontierNotEmpty(cells, candidates);
      var pick := candidates[Below(rng, next, |candidates|)];
      next := next + 1;
      assert pick in candidates;
      var d :| d in cells && Adjacent(d, pick);
      GrowStep(order, d, pick);
      cells := cells + {pick};
      order := order + [pick];
    }
    var listed := ListCells(cells);
    var normalized := Normalize(listed);
    shape := SortRowMajor(normalized);
    SortedShapeFacts(listed);
    growth := ShiftedGrowth(order, listed);
  }

  /** Normalising keeps distinct cells distinct. */
  lemma NormalizeDistinct(listed: seq<Cell>)
    requires |listed| > 0 && Distinct(listed)
    ensures Distinct(Normalize(listed))
  {
    var normalized := Normalize(listed);
    forall i, j | 0 <= i < j < |normalized| ensures normalized[i] != normalized[j] {
      assert listed[i] != listed[j];
    }
  }

  /** Sorting keeps the cells and their number. */
  lemma SortedSameCells(xs: seq<Cell>)
    ensures |SortRowMajor(xs)| == |xs|
    ensures forall c :: c in SortRowMajor(xs) <==> c in xs
  {
    var ys := SortRowMajor(xs);
    forall c ensures c in ys <==> c in xs {
      assert c in ys <==> c in multiset(ys);
      assert c in xs <==> c in multiset(xs);
    }
    assert |multiset(ys)| == |multiset(xs)|;
  }

  /** What normalising and sorting the listed cells of a grown shape yields. */
  lemma SortedShapeFacts(listed: seq<Cell>)
    requires |listed| > 0 && Distinct(listed)
    ensures var shape := SortRowMajor(Normalize(listed));
      && |shape| == |listed| && StrictlyRowMajor(shape) && Normalized(shape) && shape[0].row == 0
      && forall c :: c in shape <==> c in Normalize(listed)
  {
    var normalized := Normalize(listed);
    NormalizeDistinct(listed);
    SortedSameCells(normalized);
    var shape := SortRowMajor(normalized);
    SameCellsNormalized(normalized, shape);
    var i :| 0 <= i < |shape| && shape[i].row == 0;
    assert i == 0 || RowMajorLess(shape[0], shape[i]);
  }

  /** A list with the same cells as a normalised one is normalised. */
  lemma SameCellsNormalized(xs: seq<Cell>, ys: seq<Cell>)
    requires Normalized(xs) && forall c :: c in ys <==> c in xs
    ensures Normalized(ys)
  {
    var i :| 0 <= i < |xs| && xs[i].row == 0;
    assert xs[i] in ys;
    var j :| 0 <= j < |xs| && xs[j].col == 0;
    assert xs[j] in ys;
    forall k | 0 <= k < |ys| ensures ys[k].row >= 0 && ys[k].col >= 0 {
      assert ys[k] in xs;
    }
  }

  /** The growth order, moved by the normalising offset, lists exactly the cells of the normalised shape. */
  lemma ShiftedGrowth(order: seq<Cell>, listed: seq<Cell>) returns (growth: seq<Cell>)
    requires |listed| > 0 && GrownByAdjacency(order)
    requires forall c :: c in order <==> c in listed
    ensures GrownByAdjacency(growth) && |growth| == |order|
    ensures forall c :: c in growth <==> c in Normalize(listed)
  {
    var off := Cell(-MinRow(listed), -MinCol(listed));
    var normalized := Normalize(listed);
    growth := seq(|order|, i requires 0 <= i < |order| => Shift(order[i], off));
    ShiftKeepsGrowth(order, off, growth);
    forall c ensures c in growth <==> c in normalized {
      if c in growth {
        var i :| 0 <= i < |growth| && growth[i] == c;
        assert order[i] in listed;
        var k :| 0 <= k < |listed| && listed[k] == order[i];
        assert normalized[k] == c;
      }
      if c in normalized {
        var k :| 0 <= k < |normalized| && normalized[k] == c;
        assert listed[k] in order;
        var i :| 0 <= i < |order| && order[i] == listed[k];
        assert growth[i] == c;
      }
    }
  }
}
