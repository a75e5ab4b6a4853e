/**
 * MapGenerator: `generate_map` lays out `num_towns` towns of `min_places..max_places` places each.
 * Every town after the first gets a parent among the earlier towns; towns are placed in increasing
 * order, town 1 at offset (0, 0) and every later town docked next to its parent by a first-fit
 * search with a budget of 200 attempts; places are labelled "town:place" in shape order; the sparse
 * map is then turned into a dense grid sized to the bounding box, and the 1-indexed (x = column,
 * y = row) location of "1:1" is returned.
 */
module MapGenerator {
  import opened Wrappers
  import opened Cells
  import opened Random
  import opened Strings
  import opened Decimal
  import opened ShapeGrower

  /** Place `place` (1-based) of town `town`; its text in the grid is "town:place". */
  datatype Label = Label(town: nat, place: nat)

  /**
   * Why no map comes back: a town the docking search could not place (RuntimeError), no towns at
   * all (`min` of an empty list raises ValueError), or an empty place range (`randint` raises
   * ValueError).
   */
  datatype MapError = PlacementFailed(town: nat) | NoTowns | EmptyRange

  /**
   * Where a failed docking search stood: the town's shape and the order it was grown in, the state
   * built for the towns already placed (sparse map, cell of each label, cells of each town, place
   * counts), and the parent cells picked.
   */
  datatype Stuck = Stuck(shape: seq<Cell>, growth: seq<Cell>, placed: map<Cell, Label>, cellOf: map<Label, Cell>,
                         townCells: map<nat, set<Cell>>, townPlaces: map<nat, nat>, picks: seq<Cell>)

  /** A grid location, 1-indexed, x counting columns and y counting rows. */
  datatype Location = Location(x: int, y: int)

  datatype GeneratedMap = GeneratedMap(grid: seq<seq<string>>, townPlaces: map<nat, nat>, start: Location)

  /** Budget of the docking search, shared by all parent cells tried for one town. */
  const MaxAttempts: nat := 200

  /** The grid text of a label, "town:place". */
  function Text(l: Label): string
  {
    LabelText(l.town, l.place)
  }

  /** Both numbers of a label read back from its grid text. */
  lemma TextReadsBack(l: Label)
    ensures ParseNat(Before(Text(l), ':')) == Some(l.town)
    ensures ParseNat(After(Text(l), ':')) == Some(l.place)
  {
    LabelTextParts(l.town, l.place);
  }

  // ---------------------------------------------------------------- parent table

  /** Towns 2..n each have a parent among the towns numbered below them; town 1 has none. */
  ghost predicate ParentTable(parent: map<nat, nat>, n: nat)
  {
    && (forall t :: t in parent <==> 2 <= t <= n)
    && (forall t :: t in parent ==> 1 <= parent[t] < t)
  }

  /** The spanning tree of `generate_map`: for each town t >= 2 a parent drawn from 1..t-1. */
  method PlanParents(numTowns: nat, rng: Stream, pos: nat) returns (parent: map<nat, nat>, next: nat)
    ensures ParentTable(parent, numTowns)
    ensures next == pos + if numTowns >= 2 then numTowns - 1 else 0
  {
    parent := map[];
    next := pos;
    if numTowns < 2 {
      return;
    }
    for town := 2 to numTowns + 1
      invariant forall t :: t in parent <==> 2 <= t < town
      invariant forall t :: t in parent ==> 1 <= parent[t] < t
      invariant next == pos + town - 2
    {
      parent := parent[town := 1 + Below(rng, next, town - 1)];
      next := next + 1;
    }
  }

  /** The towns met by following parent links from `t`: it starts at t and always ends at town 1. */
  function Ancestry(parent: map<nat, nat>, n: nat, t: nat): (path: seq<nat>)
    requires ParentTable(parent, n) && 1 <= t <= n
    ensures |path| >= 1 && path[0] == t && path[|path| - 1] == 1
    ensures forall k :: 0 <= k < |path| ==> 1 <= path[k] <= t
    ensures forall k :: 0 <= k < |path| - 1 ==> path[k] in parent && parent[path[k]] == path[k + 1]
    decreases t
  {
    if t == 1 then [1] else [t] + Ancestry(parent, n, parent[t])
  }

  // ---------------------------------------------------------------- docking search

  /** No cell of the shape placed at `off` lands on an occupied cell. */
  ghost predicate Fits(shape: seq<Cell>, off: Cell, occupied: set<Cell>)
  {
    forall i :: 0 <= i < |shape| ==> Shift(shape[i], off) !in occupied
  }

  /** Some cell of the shape placed at `off` is 4-adjacent to one of `cells`. */
  ghost predicate Touches(shape: seq<Cell>, off: Cell, cells: set<Cell>)
  {
    exists i, p :: 0 <= i < |shape| && p in cells && Adjacent(p, Shift(shape[i], off))
  }

  /** The offset that puts shape cell c on cell nbr. */
  function Candidate(nbr: Cell, c: Cell): (off: Cell)
    ensures Shift(c, off) == nbr
    ensures forall o :: Shift(c, o) == nbr ==> o == off
  {
    Cell(nbr.row - c.row, nbr.col - c.col)
  }

  /** The collision test of one candidate offset: stops at the first shape cell found occupied. */
  method Collides(shape: seq<Cell>, off: Cell, occupied: set<Cell>) returns (conflict: bool)
    ensures conflict <==> !Fits(shape, off, occupied)
  {
    conflict := false;
    for k := 0 to |shape|
      invariant forall k' :: 0 <= k' < k ==> Shift(shape[k'], off) !in occupied
    {
      if Shift(shape[k], off) in occupied {
        conflict := true;
        break;
      }
    }
  }

  /**
   * No (free neighbour, shape cell) pairing tried before (n, i) gives a fitting offset; pairings
   * are tried neighbour by neighbour, and for one neighbour shape cell by shape cell.
   */
  ghost predicate NoFitBefore(shape: seq<Cell>, neighbors: seq<Cell>, occupied: set<Cell>, n: int, i: int)
  {
    forall n', i' {:trigger Candidate(neighbors[n'], shape[i'])} ::
      0 <= n' < |neighbors| && 0 <= i' < |shape| && neighbors[n'] !in occupied && (n' < n || (n' == n && i' < i)) ==>
      !Fits(shape, Candidate(neighbors[n'], shape[i']), occupied)
  }

  /** `off` is the first fitting offset: it puts shape cell i on free neighbour n, and no earlier pairing fits. */
  ghost predicate FirstFit(shape: seq<Cell>, neighbors: seq<Cell>, occupied: set<Cell>, off: Cell)
  {
    exists n, i {:trigger Candidate(neighbors[n], shape[i])} ::
      && 0 <= n < |neighbors| && 0 <= i < |shape| && neighbors[n] !in occupied
      && off == Candidate(neighbors[n], shape[i]) && Fits(shape, off, occupied)
      && NoFitBefore(shape, neighbors, occupied, n, i)
  }

  /** A failed attempt from parent cell pc: no free neighbour of pc takes any shape cell without a collision. */
  ghost predicate Exhausted(shape: seq<Cell>, pc: Cell, occupied: set<Cell>)
  {
    forall nbr, i {:trigger Candidate(nbr, shape[i])} ::
      Adjacent(pc, nbr) && nbr !in occupied && 0 <= i < |shape| ==> !Fits(shape, Candidate(nbr, shape[i]), occupied)
  }

  /**
   * One attempt of the docking search, from the parent cell `pc` whose neighbours come in the
   * (shuffled) order `neighbors`: occupied neighbours are skipped; for a free one, the shape cells
   * are tried in order as the cell to put on it, and the first offset without collision is taken.
   */
  method TryNeighbors(shape: seq<Cell>, pc: Cell, neighbors: seq<Cell>, occupied: set<Cell>) returns (offset: Option<Cell>)
    requires forall n :: n in neighbors ==> Adjacent(pc, n)
    ensures offset.Some? ==> FirstFit(shape, neighbors, occupied, offset.value)
    ensures offset.Some? ==> Fits(shape, offset.value, occupied)
    ensures offset.Some? ==> exists i :: 0 <= i < |shape| && Adjacent(pc, Shift(shape[i], offset.value))
    // nothing is missed: when no offset is returned, every free neighbour / shape cell pairing collides
    ensures offset.None? ==> NoFitBefore(shape, neighbors, occupied, |neighbors|, 0)
  {
    offset := None;
    for n := 0 to |neighbors|
      invariant offset.None?
      invariant NoFitBefore(shape, neighbors, occupied, n, 0)
    {
      var nbr := neighbors[n];
      if nbr in occupied {
        continue;
      }
      for i := 0 to |shape|
        invariant offset.None?
        invariant NoFitBefore(shape, neighbors, occupied, n, i)
      {
        var candidate := Candidate(nbr, shape[i]);
        var conflict := Collides(shape, candidate, occupied);
        if !conflict {
          assert Shift(shape[i], candidate) == nbr && Adjacent(pc, nbr);
          assert FirstFit(shape, neighbors, occupied, candidate) by {
            assert candidate == Candidate(neighbors[n], shape[i]);
          }
          offset := Some(candidate);
          break;
        }
      }
      if offset.Some? {
        break;
      }
    }
  }

  /**
   * The docking search for one town: shuffle the parent's cells, then up to 200 times pick one of
   * them at random (with replacement), shuffle its four neighbours and try them (TryNeighbors).
   * The picked cells come back in `picks`: every pick but the last failed; None means all 200
   * picks failed, and then nothing is placed; an offset is the first fit found from the last pick.
   */
  method Dock(shape: seq<Cell>, parentCells: set<Cell>, occupied: set<Cell>, rng: Stream, pos: nat)
    returns (offset: Option<Cell>, attempts: nat, next: nat, ghost picks: seq<Cell>, ghost lastNeighbors: seq<Cell>)
    requires parentCells != {}
    ensures attempts <= MaxAttempts && |picks| == attempts
    ensures forall k :: 0 <= k < |picks| ==> picks[k] in parentCells
    ensures offset.None? ==> attempts == MaxAttempts && forall k :: 0 <= k < |picks| ==> Exhausted(shape, picks[k], occupied)
    ensures offset.Some? ==>
      && attempts >= 1
      && (forall k :: 0 <= k < |picks| - 1 ==> Exhausted(shape, picks[k], occupied))
      && |lastNeighbors| == 4 && (forall c :: c in lastNeighbors <==> Adjacent(picks[|picks| - 1], c))
      && FirstFit(shape, lastNeighbors, occupied, offset.value)
    ensures offset.Some? ==> Fits(shape, offset.value, occupied) && Touches(shape, offset.value, parentCells)
  {
    var listed := ListCells(parentCells);
    var parentList := Shuffle(rng, pos, listed);
    next := pos + ShuffleDraws(|listed|);
    forall c ensures c in parentList <==> c in parentCells {
      ShuffleSameElements(rng, pos, listed, c);
    }
    var placed := false;
    offset := None;
    attempts := 0;
    picks, lastNeighbors := [], [];
    assert |parentList| > 0 by {
      var c :| c in parentCells;
      assert c in parentList;
    }
    while !placed && attempts < MaxAttempts
      invariant attempts <= MaxAttempts && |picks| == attempts
      invariant forall k :: 0 <= k < |picks| ==> picks[k] in parentCells
      invariant placed == offset.Some?
      invariant !placed ==> forall k :: 0 <= k < |picks| ==> Exhausted(shape, picks[k], occupied)
      invariant placed ==>
        && attempts >= 1
        && (forall k :: 0 <= k < |picks| - 1 ==> Exhausted(shape, picks[k], occupied))
        && |lastNeighbors| == 4 && (forall c :: c in lastNeighbors <==> Adjacent(picks[|picks| - 1], c))
        && FirstFit(shape, lastNeighbors, occupied, offset.value)
      invariant offset.Some? ==> Fits(shape, offset.value, occupied) && Touches(shape, offset.value, parentCells)
      decreases MaxAttempts - attempts
    {
      attempts := attempts + 1;
      ghost var pc, neighbors;
      offset, next, pc, neighbors := Attempt(shape, parentList, parentCells, occupied, rng, next);
      picks, lastNeighbors := picks + [pc], neighbors;
      placed := offset.Some?;
    }
  }

  /**
   * One attempt: a parent cell `pc` picked at random, its neighbours shuffled and tried in that
   * order; the offset returned is the first fit, and None means the attempt from pc failed.
   */
  method Attempt(shape: seq<Cell>, parentList: seq<Cell>, parentCells: set<Cell>, occupied: set<Cell>, rng: Stream, pos: nat)
    returns (offset: Option<Cell>, next: nat, pc: Cell, neighbors: seq<Cell>)
    requires |parentList| > 0 && forall c :: c in parentList ==> c in parentCells
    ensures pc == parentList[Below(rng, pos, |parentList|)] && pc in parentCells
    ensures |neighbors| == 4 && forall c :: c in neighbors <==> Adjacent(pc, c)
    ensures offset.Some? ==> FirstFit(shape, neighbors, occupied, offset.value)
    ensures offset.Some? ==> Fits(shape, offset.value, occupied) && Touches(shape, offset.value, parentCells)
    ensures offset.None? ==> Exhausted(shape, pc, occupied)
    ensures next == pos + 1 + ShuffleDraws(4)
  {
    pc := parentList[Below(rng, pos, |parentList|)];
    neighbors := ShuffledNeighbors(pc, rng, pos + 1);
    next := pos + 1 + ShuffleDraws(4);
    offset := TryNeighbors(shape, pc, neighbors, occupied);
    if offset.Some? {
      TouchesVia(shape, offset.value, pc, parentCells);
    } else {
      ExhaustedFromNeighbors(shape, pc, neighbors, occupied);
    }
  }

  /** Trying every neighbour of pc in some order without a fit means the attempt from pc failed. */
  lemma ExhaustedFromNeighbors(shape: seq<Cell>, pc: Cell, neighbors: seq<Cell>, occupied: set<Cell>)
    requires forall c :: c in neighbors <==> Adjacent(pc, c)
    requires NoFitBefore(shape, neighbors, occupied, |neighbors|, 0)
    ensures Exhausted(shape, pc, occupied)
  {
    forall nbr, i | Adjacent(pc, nbr) && nbr !in occupied && 0 <= i < |shape|
      ensures !Fits(shape, Candidate(nbr, shape[i]), occupied)
    {
      var n :| 0 <= n < |neighbors| && neighbors[n] == nbr;
      assert Candidate(neighbors[n], shape[i]) == Candidate(nbr, shape[i]);
    }
  }

  /** `random.shuffle` of the four neighbours of pc. */
  method ShuffledNeighbors(pc: Cell, rng: Stream, pos: nat) returns (neighbors: seq<Cell>)
    ensures |neighbors| == 4 && forall c :: c in neighbors <==> c in Neighbors(pc)
    ensures forall c :: c in neighbors <==> Adjacent(pc, c)
  {
    neighbors := Shuffle(rng, pos, Neighbors(pc));
    forall c ensures c in neighbors <==> c in Neighbors(pc) {
      ShuffleSameElements(rng, pos, Neighbors(pc), c);
    }
    forall c ensures c in neighbors <==> Adjacent(pc, c) {
      NeighborsAreAdjacent(pc, c);
    }
  }

  lemma TouchesVia(shape: seq<Cell>, off: Cell, p: Cell, cells: set<Cell>)
    requires p in cells && exists i :: 0 <= i < |shape| && Adjacent(p, Shift(shape[i], off))
    ensures Touches(shape, off, cells)
  {
  }

  // ---------------------------------------------------------------- placing one town

  /**
   * Writes the town's labels into the sparse map: shape cell i (0-based) at offset `offset` gets
   * Label(town, i + 1), and the first cell of town 1 is recorded.
   */
  method PlaceTown(town: nat, shape: seq<Cell>, offset: Cell, globalMap: map<Cell, Label>, first: Option<Cell>)
    returns (newMap: map<Cell, Label>, placedCells: set<Cell>, newFirst: Option<Cell>)
    ensures forall g :: g in placedCells <==> exists i :: 0 <= i < |shape| && g == Shift(shape[i], offset)
    ensures newMap.Keys == globalMap.Keys + placedCells
    ensures forall g :: g in globalMap && g !in placedCells ==> newMap[g] == globalMap[g]
    ensures forall g :: g in placedCells ==> newMap[g].town == town
    ensures Distinct(shape) ==> forall i :: 0 <= i < |shape| ==> newMap[Shift(shape[i], offset)] == Label(town, i + 1)
    ensures newFirst == if town == 1 && |shape| > 0 then Some(Shift(shape[0], offset)) else first
  {
    newMap, placedCells, newFirst := globalMap, {}, first;
    for i := 0 to |shape|
      invariant forall g :: g in placedCells <==> exists j :: 0 <= j < i && g == Shift(shape[j], offset)
      invariant newMap.Keys == globalMap.Keys + placedCells
      invariant forall g :: g in globalMap && g !in placedCells ==> newMap[g] == globalMap[g]
      invariant forall g :: g in placedCells ==> newMap[g].town == town
      invariant Distinct(shape) ==> forall j :: 0 <= j < i ==> newMap[Shift(shape[j], offset)] == Label(town, j + 1)
      invariant newFirst == if town == 1 && i > 0 then Some(Shift(shape[0], offset)) else first
    {
      var g := Shift(shape[i], offset);
      newMap := newMap[g := Label(town, i + 1)];
      placedCells := placedCells + {g};
      if town == 1 && i == 0 {
        newFirst := Some(g);
      }
    }
  }

  // ---------------------------------------------------------------- grid assembly

  /** min/max row and column over the occupied cells, each bound attained by some cell. */
  method Bounds(cells: set<Cell>) returns (minR: int, maxR: int, minC: int, maxC: int)
    requires cells != {}
    ensures forall c :: c in cells ==> minR <= c.row <= maxR && minC <= c.col <= maxC
    ensures exists c :: c in cells && c.row == minR
    ensures exists c :: c in cells && c.row == maxR
    ensures exists c :: c in cells && c.col == minC
    ensures exists c :: c in cells && c.col == maxC
  {
    var c0 :| c0 in cells;
    minR, maxR, minC, maxC := c0.row, c0.row, c0.col, c0.col;
    var rest := cells - {c0};
    while rest != {}
      invariant rest <= cells && c0 !in rest
      invariant forall c :: c in cells - rest ==> minR <= c.row <= maxR && minC <= c.col <= maxC
      invariant exists c :: c in cells && c.row == minR
      invariant exists c :: c in cells && c.row == maxR
      invariant exists c :: c in cells && c.col == minC
      invariant exists c :: c in cells && c.col == maxC
      decreases |rest|
    {
      var c :| c in rest;
      if c.row < minR { minR := c.row; }
      if c.row > maxR { maxR := c.row; }
      if c.col < minC { minC := c.col; }
      if c.col > maxC { maxC := c.col; }
      rest := rest - {c};
    }
  }

  /** `grid[r][k] = v` on the nested-list grid. */
  function Put(grid: seq<seq<string>>, r: nat, k: nat, v: string): (g: seq<seq<string>>)
    requires r < |grid| && k < |grid[r]|
    ensures |g| == |grid| && forall i :: 0 <= i < |g| ==> |g[i]| == |grid[i]|
    ensures forall i, j :: 0 <= i < |g| && 0 <= j < |g[i]| ==> g[i][j] == if i == r && j == k then v else grid[i][j]
  {
    grid[r := grid[r][k := v]]
  }

  /** A dense grid: at least one row, all rows of the same non-zero length. */
  predicate Rectangular(grid: seq<seq<string>>)
  {
    |grid| >= 1 && |grid[0]| >= 1 && forall r :: 0 <= r < |grid| ==> |grid[r]| == |grid[0]|
  }

  /** `[["" for _ in range(cols)] for _ in range(rows)]` */
  function EmptyGrid(rows: nat, cols: nat): (grid: seq<seq<string>>)
    ensures |grid| == rows && forall r :: 0 <= r < rows ==> |grid[r]| == cols
    ensures forall r, k :: 0 <= r < rows && 0 <= k < cols ==> grid[r][k] == ""
  {
    seq(rows, _ => seq(cols, _ => ""))
  }

  /** The sparse map moved so that (minR, minC) becomes (0, 0): where each label lands in the grid. */
  function Shifted(globalMap: map<Cell, Label>, minR: int, minC: int): map<Cell, Label>
  {
    map g | g in globalMap :: Relative(g, minR, minC) := globalMap[g]
  }

  function Relative(c: Cell, minR: int, minC: int): Cell
  {
    Cell(c.row - minR, c.col - minC)
  }

  /** Each occupied cell lands at its relative position with its own label. */
  lemma ShiftedAt(globalMap: map<Cell, Label>, minR: int, minC: int, g: Cell)
    requires g in globalMap
    ensures Relative(g, minR, minC) in Shifted(globalMap, minR, minC)
    ensures Shifted(globalMap, minR, minC)[Relative(g, minR, minC)] == globalMap[g]
  {
  }

  /** Every cell of the moved map comes from an occupied cell. */
  lemma ShiftedFrom(globalMap: map<Cell, Label>, minR: int, minC: int, c: Cell)
    requires c in Shifted(globalMap, minR, minC)
    ensures Cell(c.row + minR, c.col + minC) in globalMap
    ensures Shifted(globalMap, minR, minC)[c] == globalMap[Cell(c.row + minR, c.col + minC)]
  {
    var g :| g in globalMap && Relative(g, minR, minC) == c;
    assert g == Cell(c.row + minR, c.col + minC);
  }

  /** `grid` holds the label of every entry of `rel` at that entry's cell, and "" everywhere else. */
  ghost predicate Filled(grid: seq<seq<string>>, rel: map<Cell, Label>)
  {
    && (forall c :: c in rel ==> InGrid(grid, c) && grid[c.row][c.col] == Text(rel[c]))
    && (forall r, k :: 0 <= r < |grid| && 0 <= k < |grid[r]| && grid[r][k] != "" ==> Cell(r, k) in rel)
  }

  /** Each of the four sides of the grid holds an entry of `rel`. */
  ghost predicate Spans(grid: seq<seq<string>>, rel: map<Cell, Label>)
    requires Rectangular(grid)
  {
    && (exists c :: c in rel && c.row == 0)
    && (exists c :: c in rel && c.row == |grid| - 1)
    && (exists c :: c in rel && c.col == 0)
    && (exists c :: c in rel && c.col == |grid[0]| - 1)
  }

  /** The entries of `rel` in `done` are written, and every non-"" entry of the grid is one of them. */
  ghost predicate FilledOn(grid: seq<seq<string>>, rel: map<Cell, Label>, done: set<Cell>, rows: nat, cols: nat)
  {
    && |grid| == rows && (forall r :: 0 <= r < rows ==> |grid[r]| == cols)
    && (forall c :: c in done ==> 0 <= c.row < rows && 0 <= c.col < cols)
    && (forall c :: c in done && c in rel ==> grid[c.row][c.col] == Text(rel[c]))
    && (forall r, k :: 0 <= r < rows && 0 <= k < cols && grid[r][k] != "" ==> Cell(r, k) in done)
  }

  lemma FillStep(grid: seq<seq<string>>, rel: map<Cell, Label>, done: set<Cell>, rows: nat, cols: nat, c: Cell)
    requires FilledOn(grid, rel, done, rows, cols) && c in rel && 0 <= c.row < rows && 0 <= c.col < cols
    ensures FilledOn(Put(grid, c.row, c.col, Text(rel[c])), rel, done + {c}, rows, cols)
  {
    var grid' := Put(grid, c.row, c.col, Text(rel[c]));
    forall d | d in done + {c} && d in rel ensures grid'[d.row][d.col] == Text(rel[d]) {
      if d != c {
        assert d.row != c.row || d.col != c.col;
      }
    }
  }

  /** Once every entry of `rel` is written, the grid is filled with `rel`. */
  lemma FilledOnAll(grid: seq<seq<string>>, rel: map<Cell, Label>, rows: nat, cols: nat)
    requires FilledOn(grid, rel, rel.Keys, rows, cols)
    ensures Filled(grid, rel)
  {
  }

  /** A rows x cols grid of "", with nothing of `rel` written yet. */
  method BlankGrid(rel: map<Cell, Label>, rows: nat, cols: nat) returns (grid: seq<seq<string>>)
    ensures FilledOn(grid, rel, {}, rows, cols)
  {
    grid := EmptyGrid(rows, cols);
  }

  /** Writes the label of the entry c of `rel` into its cell. */
  method FillCell(grid: seq<seq<string>>, rel: map<Cell, Label>, ghost done: set<Cell>, rows: nat, cols: nat, c: Cell)
    returns (grid': seq<seq<string>>)
    requires FilledOn(grid, rel, done, rows, cols) && c in rel && 0 <= c.row < rows && 0 <= c.col < cols
    ensures FilledOn(grid', rel, done + {c}, rows, cols)
  {
    FillStep(grid, rel, done, rows, cols, c);
    grid' := Put(grid, c.row, c.col, Text(rel[c]));
  }

  /** Writes the label of every entry of `rel` into a rows x cols grid of "". */
  method FillGrid(rel: map<Cell, Label>, rows: nat, cols: nat) returns (grid: seq<seq<string>>)
    requires forall c :: c in rel ==> 0 <= c.row < rows && 0 <= c.col < cols
    ensures |grid| == rows && forall r :: 0 <= r < rows ==> |grid[r]| == cols
    ensures Filled(grid, rel)
  {
    grid := BlankGrid(rel, rows, cols);
    var rest := rel.Keys;
    ghost var done: set<Cell> := {};
    while rest != {}
      invariant rest <= rel.Keys && done == rel.Keys - rest
      invariant FilledOn(grid, rel, done, rows, cols)
      decreases |rest|
    {
      var c :| c in rest;
      grid := FillCell(grid, rel, done, rows, cols, c);
      rest := rest - {c};
      done := done + {c};
    }
    FilledOnAll(grid, rel, rows, cols);
  }

  /**
   * The dense grid of a non-empty sparse map: one row per row of the bounding box and one column
   * per column; the label of each occupied cell (r, c) sits at (r - minR, c - minC), every other
   * entry is "", and each side of the grid holds at least one label.
   */
  method AssembleGrid(globalMap: map<Cell, Label>) returns (grid: seq<seq<string>>, minR: int, minC: int)
    requires globalMap != map[]
    ensures Rectangular(grid)
    ensures Filled(grid, Shifted(globalMap, minR, minC))
    ensures Spans(grid, Shifted(globalMap, minR, minC))
  {
    assert exists g :: g in globalMap;
    var maxR, maxC;
    minR, maxR, minC, maxC := Bounds(globalMap.Keys);
    var rows, cols := maxR - minR + 1, maxC - minC + 1;
    var rel := Shifted(globalMap, minR, minC);
    forall c | c in rel ensures 0 <= c.row < rows && 0 <= c.col < cols {
      ShiftedFrom(globalMap, minR, minC, c);
    }
    grid := FillGrid(rel, rows, cols);
    ghost var top :| top in globalMap && top.row == minR;
    ghost var bottom :| bottom in globalMap && bottom.row == maxR;
    ghost var left :| left in globalMap && left.col == minC;
    ghost var right :| right in globalMap && right.col == maxC;
    ShiftedAt(globalMap, minR, minC, top);
    ShiftedAt(globalMap, minR, minC, bottom);
    ShiftedAt(globalMap, minR, minC, left);
    ShiftedAt(globalMap, minR, minC, right);
    assert Relative(top, minR, minC).row == 0 && Relative(bottom, minR, minC).row == |grid| - 1;
    assert Relative(left, minR, minC).col == 0 && Relative(right, minR, minC).col == |grid[0]| - 1;
  }

  // ---------------------------------------------------------------- the state built town by town

  /** `l` names an existing place: its town has a place count and 1 <= place <= that count. */
  ghost predicate ValidLabel(l: Label, townPlaces: map<nat, nat>)
  {
    l.town in townPlaces && 1 <= l.place <= townPlaces[l.town]
  }

  /** Some place of town t is 4-adjacent to some place of its parent, `cellOf` giving where places are. */
  ghost predicate TouchesParent(cellOf: map<Label, Cell>, parent: map<nat, nat>, t: nat)
  {
    t in parent &&
    exists i, j :: Label(t, i) in cellOf && Label(parent[t], j) in cellOf &&
      Adjacent(cellOf[Label(parent[t], j)], cellOf[Label(t, i)])
  }

  /** Towns 1..n have a place count, each in [minP, maxP]. */
  ghost predicate Counted(townPlaces: map<nat, nat>, n: nat, minP: nat, maxP: nat)
  {
    && (forall t :: t in townPlaces <==> 1 <= t <= n)
    && (forall t :: t in townPlaces ==> minP <= townPlaces[t] <= maxP)
  }

  /**
   * The labels of the sparse map are exactly the places 1..count of each counted town, each on a
   * cell of its own: `cellOf` and the map are inverse to each other.
   */
  ghost predicate Labelled(globalMap: map<Cell, Label>, cellOf: map<Label, Cell>, townPlaces: map<nat, nat>)
  {
    && (forall l :: l in cellOf <==> ValidLabel(l, townPlaces))
    && (forall l :: l in cellOf ==> cellOf[l] in globalMap && globalMap[cellOf[l]] == l)
    && (forall g :: g in globalMap ==> globalMap[g] in cellOf && cellOf[globalMap[g]] == g)
  }

  /** `townCells[t]` is the set of cells labelled with town t. */
  ghost predicate Grouped(globalMap: map<Cell, Label>, townCells: map<nat, set<Cell>>)
  {
    && (forall t, g :: t in townCells && g in townCells[t] ==> g in globalMap && globalMap[g].town == t)
    && (forall t, g :: t in townCells && g in globalMap && globalMap[g].town == t ==> g in townCells[t])
  }

  /**
   * The towns are connected: from any town 1..n, following parent links leads to town 1 through a
   * chain of towns each of which has a place 4-adjacent to a place of the next.
   */
  lemma TownsConnected(cellOf: map<Label, Cell>, parent: map<nat, nat>, n: nat, t: nat) returns (path: seq<nat>)
    requires ParentTable(parent, n) && Docked(cellOf, parent, n) && 1 <= t <= n
    ensures |path| >= 1 && path[0] == t && path[|path| - 1] == 1
    ensures forall k :: 0 <= k < |path| - 1 ==> path[k] in parent && parent[path[k]] == path[k + 1] && TouchesParent(cellOf, parent, path[k])
  {
    path := Ancestry(parent, n, t);
    forall k | 0 <= k < |path| - 1 ensures path[k] in parent && parent[path[k]] == path[k + 1] && TouchesParent(cellOf, parent, path[k]) {
      assert 2 <= path[k] <= n;
    }
  }

  /** Every town 2..n touches its parent. */
  ghost predicate Docked(cellOf: map<Label, Cell>, parent: map<nat, nat>, n: nat)
  {
    forall t :: 2 <= t <= n ==> TouchesParent(cellOf, parent, t)
  }

  /** The cells of places 1..k of town t, in place order. */
  ghost function TownLayout(cellOf: map<Label, Cell>, t: nat, k: nat): seq<Cell>
    requires forall p :: 1 <= p <= k ==> Label(t, p) in cellOf
  {
    seq(k, i requires 0 <= i < k => cellOf[Label(t, i + 1)])
  }

  /**
   * Town t's k places lie on one 4-connected cluster of cells, numbered in row-major order: place
   * i + 1 is the i-th cell of the sorted shape, wherever the shape was moved to.
   */
  ghost predicate TownShaped(cellOf: map<Label, Cell>, t: nat, k: nat)
  {
    && (forall p :: 1 <= p <= k ==> Label(t, p) in cellOf)
    && StrictlyRowMajor(TownLayout(cellOf, t, k))
    && Contiguous(TownLayout(cellOf, t, k))
  }

  /** Every town recorded in `townPlaces` is shaped. */
  ghost predicate Shaped(cellOf: map<Label, Cell>, townPlaces: map<nat, nat>)
  {
    forall t :: t in townPlaces ==> TownShaped(cellOf, t, townPlaces[t])
  }

  /** A shaped town of two places sits on two adjacent cells, place 1 first in row-major order. */
  lemma TwoPlaceTown(cellOf: map<Label, Cell>, t: nat)
    requires TownShaped(cellOf, t, 2)
    ensures Adjacent(cellOf[Label(t, 1)], cellOf[Label(t, 2)])
    ensures RowMajorLess(cellOf[Label(t, 1)], cellOf[Label(t, 2)])
  {
    var layout := TownLayout(cellOf, t, 2);
    assert layout[0] == cellOf[Label(t, 1)] && layout[1] == cellOf[Label(t, 2)];
    var order :| GrownByAdjacency(order) && |order| == 2 && forall c :: c in order <==> c in layout;
    assert TouchesEarlier(order, 1);
    assert Adjacent(order[0], order[1]);
    assert order[0] in layout && order[1] in layout;
  }

  /** Labelling a new town from a contiguous row-major shape keeps every town shaped. */
  lemma ShapedStep(cellOf: map<Label, Cell>, townPlaces: map<nat, nat>, t: nat, shape: seq<Cell>, off: Cell)
    requires Shaped(cellOf, townPlaces) && t !in townPlaces
    requires StrictlyRowMajor(shape) && Contiguous(shape)
    ensures Shaped(cellOf + NewPlaces(t, shape, off), townPlaces[t := |shape|])
  {
    var cellOf' := cellOf + NewPlaces(t, shape, off);
    var places' := townPlaces[t := |shape|];
    forall u | u in places' ensures TownShaped(cellOf', u, places'[u]) {
      if u == t {
        NewTownShaped(cellOf, t, shape, off);
      } else {
        OldTownShaped(cellOf, townPlaces, t, shape, off, u);
      }
    }
  }

  /** The town just added is laid out as its shape, moved by `off`. */
  lemma NewTownShaped(cellOf: map<Label, Cell>, t: nat, shape: seq<Cell>, off: Cell)
    requires StrictlyRowMajor(shape) && Contiguous(shape)
    ensures TownShaped(cellOf + NewPlaces(t, shape, off), t, |shape|)
  {
    var cellOf' := cellOf + NewPlaces(t, shape, off);
    forall p | 1 <= p <= |shape| ensures Label(t, p) in cellOf' && cellOf'[Label(t, p)] == Shift(shape[p - 1], off) {
      NewPlacesAt(t, shape, off, Label(t, p));
    }
    ShiftContiguous(shape, off, TownLayout(cellOf', t, |shape|));
  }

  /** A town placed earlier keeps its layout when another town's labels are added. */
  lemma OldTownShaped(cellOf: map<Label, Cell>, townPlaces: map<nat, nat>, t: nat, shape: seq<Cell>, off: Cell, u: nat)
    requires Shaped(cellOf, townPlaces) && u in townPlaces && u != t
    ensures TownShaped(cellOf + NewPlaces(t, shape, off), u, townPlaces[u])
  {
    var cellOf' := cellOf + NewPlaces(t, shape, off);
    assert TownShaped(cellOf, u, townPlaces[u]);
    forall p | 1 <= p <= townPlaces[u] ensures Label(u, p) in cellOf' && cellOf'[Label(u, p)] == cellOf[Label(u, p)] {
      NewPlacesAt(t, shape, off, Label(u, p));
    }
    assert TownLayout(cellOf', u, townPlaces[u]) == TownLayout(cellOf, u, townPlaces[u]);
  }

  /** Moving every place by the same offset keeps every town shaped. */
  lemma ShapedMoved(cellOf: map<Label, Cell>, townPlaces: map<nat, nat>, off: Cell, moved: map<Label, Cell>)
    requires Shaped(cellOf, townPlaces)
    requires moved.Keys == cellOf.Keys && forall l :: l in cellOf ==> moved[l] == Shift(cellOf[l], off)
    ensures Shaped(moved, townPlaces)
  {
    forall t | t in townPlaces ensures TownShaped(moved, t, townPlaces[t]) {
      assert TownShaped(cellOf, t, townPlaces[t]);
      ShiftContiguous(TownLayout(cellOf, t, townPlaces[t]), off, TownLayout(moved, t, townPlaces[t]));
    }
  }

  /** The state after towns 1..n are placed. */
  ghost predicate Built(globalMap: map<Cell, Label>, cellOf: map<Label, Cell>, townCells: map<nat, set<Cell>>,
                        townPlaces: map<nat, nat>, parent: map<nat, nat>, n: nat, minP: nat, maxP: nat)
  {
    && Counted(townPlaces, n, minP, maxP)
    && townCells.Keys == townPlaces.Keys
    && Labelled(globalMap, cellOf, townPlaces)
    && Grouped(globalMap, townCells)
    && Docked(cellOf, parent, n)
  }

  /** Where the places of the newly placed town lie: place i + 1 on shape cell i moved by `off`. */
  ghost function NewPlaces(t: nat, shape: seq<Cell>, off: Cell): map<Label, Cell>
  {
    map i | 0 <= i < |shape| :: Label(t, i + 1) := Shift(shape[i], off)
  }

  lemma NewPlacesAt(t: nat, shape: seq<Cell>, off: Cell, l: Label)
    ensures l in NewPlaces(t, shape, off) <==> l.town == t && 1 <= l.place <= |shape|
    ensures l in NewPlaces(t, shape, off) ==> NewPlaces(t, shape, off)[l] == Shift(shape[l.place - 1], off)
  {
    if l.town == t && 1 <= l.place <= |shape| {
      var i := l.place - 1;
      assert Label(t, i + 1) == l;
    }
  }

  /** The parent of a town being placed already has a cell. */
  lemma ParentHasCells(globalMap: map<Cell, Label>, cellOf: map<Label, Cell>, townCells: map<nat, set<Cell>>,
                       townPlaces: map<nat, nat>, parent: map<nat, nat>, n: nat, minP: nat, maxP: nat, p: nat)
    requires Built(globalMap, cellOf, townCells, townPlaces, parent, n, minP, maxP)
    requires 1 <= p <= n && minP >= 1
    ensures p in townCells && townCells[p] != {}
  {
    assert ValidLabel(Label(p, 1), townPlaces);
    assert cellOf[Label(p, 1)] in townCells[p];
  }

  /** The cells of a town placed where it fits were all free. */
  lemma PlacedWereFree(globalMap: map<Cell, Label>, shape: seq<Cell>, off: Cell, placed: set<Cell>)
    requires Fits(shape, off, globalMap.Keys)
    requires forall g :: g in placed <==> exists i :: 0 <= i < |shape| && g == Shift(shape[i], off)
    ensures forall g :: g in globalMap ==> g !in placed
  {
    forall g | g in placed ensures g !in globalMap {
      var i :| 0 <= i < |shape| && g == Shift(shape[i], off);
      assert Shift(shape[i], off) !in globalMap.Keys;
    }
  }

  lemma LabelledStep(globalMap: map<Cell, Label>, cellOf: map<Label, Cell>, townPlaces: map<nat, nat>, t: nat,
                     shape: seq<Cell>, off: Cell, newMap: map<Cell, Label>, placed: set<Cell>)
    requires Labelled(globalMap, cellOf, townPlaces) && t !in townPlaces
    requires forall g :: g in globalMap ==> g !in placed
    requires forall g :: g in placed <==> exists i :: 0 <= i < |shape| && g == Shift(shape[i], off)
    requires newMap.Keys == globalMap.Keys + placed
    requires forall g :: g in globalMap ==> newMap[g] == globalMap[g]
    requires forall i :: 0 <= i < |shape| ==> newMap[Shift(shape[i], off)] == Label(t, i + 1)
    ensures Labelled(newMap, cellOf + NewPlaces(t, shape, off), townPlaces[t := |shape|])
  {
    var cellOf' := cellOf + NewPlaces(t, shape, off);
    var places' := townPlaces[t := |shape|];
    forall l ensures l in cellOf' <==> ValidLabel(l, places') {
      NewPlacesAt(t, shape, off, l);
    }
    PlacedFound(globalMap, cellOf, townPlaces, t, shape, off, newMap);
    PlacedNamed(globalMap, cellOf, townPlaces, t, shape, off, newMap, placed);
  }

  /** After placing town t, every label, old or new, is found on its cell. */
  lemma PlacedFound(globalMap: map<Cell, Label>, cellOf: map<Label, Cell>, townPlaces: map<nat, nat>, t: nat,
                    shape: seq<Cell>, off: Cell, newMap: map<Cell, Label>)
    requires Labelled(globalMap, cellOf, townPlaces) && t !in townPlaces
    requires forall g :: g in globalMap ==> g in newMap && newMap[g] == globalMap[g]
    requires forall i :: 0 <= i < |shape| ==> Shift(shape[i], off) in newMap && newMap[Shift(shape[i], off)] == Label(t, i + 1)
    ensures var cellOf' := cellOf + NewPlaces(t, shape, off);
      forall l :: l in cellOf' ==> cellOf'[l] in newMap && newMap[cellOf'[l]] == l
  {
    var cellOf' := cellOf + NewPlaces(t, shape, off);
    forall l | l in cellOf' ensures cellOf'[l] in newMap && newMap[cellOf'[l]] == l {
      NewPlacesAt(t, shape, off, l);
      if l.town == t {
        var i := l.place - 1;
        assert cellOf'[l] == Shift(shape[i], off) && Label(t, i + 1) == l;
      }
    }
  }

  /** After placing town t, every cell of the new map carries a label that leads back to it. */
  lemma PlacedNamed(globalMap: map<Cell, Label>, cellOf: map<Label, Cell>, townPlaces: map<nat, nat>, t: nat,
                    shape: seq<Cell>, off: Cell, newMap: map<Cell, Label>, placed: set<Cell>)
    requires Labelled(globalMap, cellOf, townPlaces) && t !in townPlaces
    requires forall g :: g in placed <==> exists i :: 0 <= i < |shape| && g == Shift(shape[i], off)
    requires newMap.Keys == globalMap.Keys + placed
    requires forall g :: g in globalMap ==> newMap[g] == globalMap[g]
    requires forall i :: 0 <= i < |shape| ==> newMap[Shift(shape[i], off)] == Label(t, i + 1)
    ensures var cellOf' := cellOf + NewPlaces(t, shape, off);
      forall g :: g in newMap ==> newMap[g] in cellOf' && cellOf'[newMap[g]] == g
  {
    var cellOf' := cellOf + NewPlaces(t, shape, off);
    forall g | g in newMap ensures newMap[g] in cellOf' && cellOf'[newMap[g]] == g {
      if g in placed {
        var i :| 0 <= i < |shape| && g == Shift(shape[i], off);
        NewPlacesAt(t, shape, off, Label(t, i + 1));
      } else {
        NewPlacesAt(t, shape, off, globalMap[g]);
      }
    }
  }

  lemma GroupedStep(globalMap: map<Cell, Label>, townCells: map<nat, set<Cell>>, t: nat,
                    newMap: map<Cell, Label>, placed: set<Cell>)
    requires Grouped(globalMap, townCells) && t !in townCells
    requires forall g :: g in globalMap ==> g !in placed
    requires newMap.Keys == globalMap.Keys + placed
    requires forall g :: g in globalMap ==> newMap[g] == globalMap[g]
    requires forall g :: g in placed ==> newMap[g].town == t
    requires forall g :: g in globalMap ==> globalMap[g].town in townCells
    ensures Grouped(newMap, townCells[t := placed])
  {
    var townCells' := townCells[t := placed];
    forall u, g | u in townCells' && g in townCells'[u] ensures g in newMap && newMap[g].town == u {
      if u != t {
        assert g in townCells[u];
      }
    }
    forall u, g | u in townCells' && g in newMap && newMap[g].town == u ensures g in townCells'[u] {
      if g in placed {
        assert u == t;
      } else {
        assert g in globalMap && globalMap[g].town == u;
      }
    }
  }

  lemma DockedStep(globalMap: map<Cell, Label>, cellOf: map<Label, Cell>, townCells: map<nat, set<Cell>>,
                   townPlaces: map<nat, nat>, parent: map<nat, nat>, t: nat, shape: seq<Cell>, off: Cell)
    requires t >= 1 && Docked(cellOf, parent, t - 1)
    requires Labelled(globalMap, cellOf, townPlaces) && Grouped(globalMap, townCells)
    requires forall l :: l in cellOf ==> l.town < t
    requires t >= 2 ==> t in parent && parent[t] in townCells && Touches(shape, off, townCells[parent[t]])
    ensures Docked(cellOf + NewPlaces(t, shape, off), parent, t)
  {
    var cellOf' := cellOf + NewPlaces(t, shape, off);
    forall u | 2 <= u <= t ensures TouchesParent(cellOf', parent, u) {
      if u < t {
        assert TouchesParent(cellOf, parent, u);
        var i, j :| Label(u, i) in cellOf && Label(parent[u], j) in cellOf &&
          Adjacent(cellOf[Label(parent[u], j)], cellOf[Label(u, i)]);
        NewPlacesAt(t, shape, off, Label(u, i));
        NewPlacesAt(t, shape, off, Label(parent[u], j));
        assert Label(u, i) in cellOf' && Label(parent[u], j) in cellOf';
      } else {
        var i, p :| 0 <= i < |shape| && p in townCells[parent[t]] && Adjacent(p, Shift(shape[i], off));
        var lp := globalMap[p];
        NewPlacesAt(t, shape, off, lp);
        NewPlacesAt(t, shape, off, Label(t, i + 1));
        assert lp == Label(parent[t], lp.place);
        assert cellOf'[lp] == p && cellOf'[Label(t, i + 1)] == Shift(shape[i], off);
      }
    }
  }

  lemma CountedStep(townPlaces: map<nat, nat>, t: nat, k: nat, minP: nat, maxP: nat)
    requires t >= 1 && Counted(townPlaces, t - 1, minP, maxP) && minP <= k <= maxP
    ensures Counted(townPlaces[t := k], t, minP, maxP)
  {
  }

  /** Placing town t = n + 1 on cells that were free keeps the placement state. */
  lemma PlaceStep(globalMap: map<Cell, Label>, cellOf: map<Label, Cell>, townCells: map<nat, set<Cell>>,
                  townPlaces: map<nat, nat>, parent: map<nat, nat>, t: nat, minP: nat, maxP: nat,
                  shape: seq<Cell>, off: Cell, newMap: map<Cell, Label>, placed: set<Cell>)
    requires t >= 1 && Built(globalMap, cellOf, townCells, townPlaces, parent, t - 1, minP, maxP)
    requires minP <= |shape| <= maxP
    requires Fits(shape, off, globalMap.Keys)
    requires t >= 2 ==> t in parent && parent[t] in townCells && Touches(shape, off, townCells[parent[t]])
    requires forall g :: g in placed <==> exists i :: 0 <= i < |shape| && g == Shift(shape[i], off)
    requires newMap.Keys == globalMap.Keys + placed
    requires forall g :: g in globalMap && g !in placed ==> newMap[g] == globalMap[g]
    requires forall g :: g in placed ==> newMap[g].town == t
    requires forall i :: 0 <= i < |shape| ==> newMap[Shift(shape[i], off)] == Label(t, i + 1)
    ensures Built(newMap, cellOf + NewPlaces(t, shape, off), townCells[t := placed], townPlaces[t := |shape|], parent, t, minP, maxP)
  {
    var cellOf' := cellOf + NewPlaces(t, shape, off);
    var places' := townPlaces[t := |shape|];
    PlacedWereFree(globalMap, shape, off, placed);
    assert t !in townPlaces;
    LabelledStep(globalMap, cellOf, townPlaces, t, shape, off, newMap, placed);
    assert forall g :: g in globalMap ==> globalMap[g].town in townCells by {
      forall g | g in globalMap ensures globalMap[g].town in townCells {
        assert ValidLabel(globalMap[g], townPlaces);
      }
    }
    GroupedStep(globalMap, townCells, t, newMap, placed);
    assert forall l :: l in cellOf ==> l.town < t by {
      forall l | l in cellOf ensures l.town < t {
        assert ValidLabel(l, townPlaces);
      }
    }
    DockedStep(globalMap, cellOf, townCells, townPlaces, parent, t, shape, off);
    CountedStep(townPlaces, t, |shape|, minP, maxP);
  }

  // ---------------------------------------------------------------- the generated map

  predicate InGrid(grid: seq<seq<string>>, c: Cell)
  {
    0 <= c.row < |grid| && 0 <= c.col < |grid[c.row]|
  }

  /**
   * `where` gives the grid cell (0-based row, column) of every place: each place of each town has a
   * cell of its own holding its label, and every cell holding no place is "".
   */
  ghost predicate LaidOut(grid: seq<seq<string>>, townPlaces: map<nat, nat>, where: map<Label, Cell>)
  {
    && Rectangular(grid)
    && (forall l :: l in where <==> ValidLabel(l, townPlaces))
    && (forall l :: l in where ==> InGrid(grid, where[l]) && grid[where[l].row][where[l].col] == Text(l))
    && (forall l1, l2 :: l1 in where && l2 in where && where[l1] == where[l2] ==> l1 == l2)
    && (forall r, k :: 0 <= r < |grid| && 0 <= k < |grid[r]| && grid[r][k] != "" ==>
          exists l :: l in where && where[l] == Cell(r, k))
  }

  /** The grid is no larger than the bounding box of the places: each of its four sides holds a place. */
  ghost predicate Tight(grid: seq<seq<string>>, where: map<Label, Cell>)
    requires Rectangular(grid)
  {
    && (exists l :: l in where && where[l].row == 0)
    && (exists l :: l in where && where[l].row == |grid| - 1)
    && (exists l :: l in where && where[l].col == 0)
    && (exists l :: l in where && where[l].col == |grid[0]| - 1)
  }

  /** `start` is the 1-indexed (x = column, y = row) location of place "1:1" in `where`. */
  ghost predicate StartAt(start: Location, where: map<Label, Cell>)
  {
    Label(1, 1) in where && start == Location(where[Label(1, 1)].col + 1, where[Label(1, 1)].row + 1)
  }

  /** Indexing the grid at the 1-indexed (x, y) start location yields "1:1". */
  predicate StartsOnOneOne(grid: seq<seq<string>>, start: Location)
  {
    1 <= start.y <= |grid| && 1 <= start.x <= |grid[start.y - 1]| && grid[start.y - 1][start.x - 1] == "1:1"
  }

  /** A label occurs in a laid-out grid at its own cell and nowhere else. */
  lemma LabelAppearsOnce(grid: seq<seq<string>>, townPlaces: map<nat, nat>, where: map<Label, Cell>, l: Label, r: nat, k: nat)
    requires LaidOut(grid, townPlaces, where) && ValidLabel(l, townPlaces)
    requires r < |grid| && k < |grid[r]| && grid[r][k] == Text(l)
    ensures where[l] == Cell(r, k)
  {
    assert grid[r][k] != "";
    var l' :| l' in where && where[l'] == Cell(r, k);
    LabelTextInjective(l.town, l.place, l'.town, l'.place);
  }

  /** `where` is `cellOf` moved by (-minR, -minC). */
  ghost predicate RelativeTo(where: map<Label, Cell>, cellOf: map<Label, Cell>, minR: int, minC: int)
  {
    && (forall l :: l in where <==> l in cellOf)
    && (forall l :: l in where ==> where[l] == Relative(cellOf[l], minR, minC))
  }

  /** Moving the sparse map and `cellOf` by the same amount keeps them inverse to each other. */
  lemma ShiftedLabelled(globalMap: map<Cell, Label>, cellOf: map<Label, Cell>, townPlaces: map<nat, nat>,
                        minR: int, minC: int, where: map<Label, Cell>)
    requires Labelled(globalMap, cellOf, townPlaces)
    requires RelativeTo(where, cellOf, minR, minC)
    ensures Labelled(Shifted(globalMap, minR, minC), where, townPlaces)
  {
    var rel := Shifted(globalMap, minR, minC);
    forall l | l in where ensures where[l] in rel && rel[where[l]] == l {
      ShiftedAt(globalMap, minR, minC, cellOf[l]);
    }
    forall c | c in rel ensures rel[c] in where && where[rel[c]] == c {
      ShiftedFrom(globalMap, minR, minC, c);
      var g := Cell(c.row + minR, c.col + minC);
      assert cellOf[globalMap[g]] == g;
    }
  }

  /** A grid filled from a sparse map that is inverse to `where` lays the places out as `where` says. */
  lemma LaidOutFromGrid(rel: map<Cell, Label>, where: map<Label, Cell>, townPlaces: map<nat, nat>, grid: seq<seq<string>>)
    requires Labelled(rel, where, townPlaces) && Rectangular(grid) && Filled(grid, rel)
    ensures LaidOut(grid, townPlaces, where)
  {
    forall l | l in where ensures InGrid(grid, where[l]) && grid[where[l].row][where[l].col] == Text(l) {
      assert rel[where[l]] == l;
    }
    forall r, k | 0 <= r < |grid| && 0 <= k < |grid[r]| && grid[r][k] != "" ensures exists l :: l in where && where[l] == Cell(r, k) {
      assert where[rel[Cell(r, k)]] == Cell(r, k);
    }
  }

  lemma TightFromGrid(rel: map<Cell, Label>, where: map<Label, Cell>, townPlaces: map<nat, nat>, grid: seq<seq<string>>)
    requires Labelled(rel, where, townPlaces) && Rectangular(grid) && Spans(grid, rel)
    ensures Tight(grid, where)
  {
    var c1 :| c1 in rel && c1.row == 0;
    assert where[rel[c1]] == c1;
    var c2 :| c2 in rel && c2.row == |grid| - 1;
    assert where[rel[c2]] == c2;
    var c3 :| c3 in rel && c3.col == 0;
    assert where[rel[c3]] == c3;
    var c4 :| c4 in rel && c4.col == |grid[0]| - 1;
    assert where[rel[c4]] == c4;
  }

  /** Moving every place by the same amount keeps each town next to its parent. */
  lemma DockedRelative(cellOf: map<Label, Cell>, parent: map<nat, nat>, n: nat, minR: int, minC: int, where: map<Label, Cell>)
    requires Docked(cellOf, parent, n)
    requires RelativeTo(where, cellOf, minR, minC)
    ensures Docked(where, parent, n)
  {
    forall t | 2 <= t <= n ensures TouchesParent(where, parent, t) {
      assert TouchesParent(cellOf, parent, t);
      var i, j :| Label(t, i) in cellOf && Label(parent[t], j) in cellOf &&
        Adjacent(cellOf[Label(parent[t], j)], cellOf[Label(t, i)]);
      assert Adjacent(where[Label(parent[t], j)], where[Label(t, i)]);
    }
  }

  /** The start location computed from the grid cell of "1:1" indexes "1:1" in the grid. */
  lemma StartFromFirst(rel: map<Cell, Label>, where: map<Label, Cell>, townPlaces: map<nat, nat>, grid: seq<seq<string>>, c: Cell)
    requires Labelled(rel, where, townPlaces) && Filled(grid, rel)
    requires c in rel && rel[c] == Label(1, 1)
    ensures StartAt(Location(c.col + 1, c.row + 1), where)
    ensures StartsOnOneOne(grid, Location(c.col + 1, c.row + 1))
  {
    assert where[Label(1, 1)] == c;
    OneOneText();
  }

  /** Once towns 1..n are placed, every occupied cell belongs to one of them. */
  lemma PlacedBefore(globalMap: map<Cell, Label>, cellOf: map<Label, Cell>, townCells: map<nat, set<Cell>>,
                     townPlaces: map<nat, nat>, parent: map<nat, nat>, n: nat, minP: nat, maxP: nat)
    requires Built(globalMap, cellOf, townCells, townPlaces, parent, n, minP, maxP)
    ensures forall g :: g in globalMap ==> 1 <= globalMap[g].town <= n
  {
    forall g | g in globalMap ensures 1 <= globalMap[g].town <= n {
      assert ValidLabel(globalMap[g], townPlaces);
    }
  }

  /**
   * A failed docking search for town t: the state is the one built for towns 1..t-1 (so only those
   * towns are placed), the town's shape is a grown, normalised, row-major cluster with a count in
   * range, and each of the 200 cells picked is a cell of the parent town from which no offset fits.
   */
  ghost predicate FailedDocking(stuck: Stuck, t: nat, parent: map<nat, nat>, minP: nat, maxP: nat)
  {
    && t >= 1 && t in parent
    && Built(stuck.placed, stuck.cellOf, stuck.townCells, stuck.townPlaces, parent, t - 1, minP, maxP)
    && (forall g :: g in stuck.placed ==> 1 <= stuck.placed[g].town < t)
    && minP <= |stuck.shape| <= maxP
    && StrictlyRowMajor(stuck.shape) && Normalized(stuck.shape)
    && GrownByAdjacency(stuck.growth) && |stuck.growth| == |stuck.shape|
    && (forall c :: c in stuck.growth <==> c in stuck.shape)
    && |stuck.picks| == MaxAttempts
    && forall k :: 0 <= k < |stuck.picks| ==>
         && stuck.picks[k] in stuck.placed && stuck.placed[stuck.picks[k]].town == parent[t]
         && Exhausted(stuck.shape, stuck.picks[k], stuck.placed.Keys)
  }

  /** A docking search that ran out of attempts on the state built for towns 1..t-1 failed in the sense above. */
  lemma DockFailed(globalMap: map<Cell, Label>, cellOf: map<Label, Cell>, townCells: map<nat, set<Cell>>,
                   townPlaces: map<nat, nat>, parent: map<nat, nat>, t: nat, minP: nat, maxP: nat,
                   shape: seq<Cell>, growth: seq<Cell>, picks: seq<Cell>)
    requires t >= 1 && Built(globalMap, cellOf, townCells, townPlaces, parent, t - 1, minP, maxP)
    requires t in parent && parent[t] in townCells
    requires minP <= |shape| <= maxP && StrictlyRowMajor(shape) && Normalized(shape)
    requires GrownByAdjacency(growth) && |growth| == |shape| && forall c :: c in growth <==> c in shape
    requires |picks| == MaxAttempts
    requires forall k :: 0 <= k < |picks| ==> picks[k] in townCells[parent[t]]
    requires forall k :: 0 <= k < |picks| ==> Exhausted(shape, picks[k], globalMap.Keys)
    ensures FailedDocking(Stuck(shape, growth, globalMap, cellOf, townCells, townPlaces, picks), t, parent, minP, maxP)
  {
    PlacedBefore(globalMap, cellOf, townCells, townPlaces, parent, t - 1, minP, maxP);
  }

  /** A one-cell shape fits next to any cell whose upper neighbour is free, so that cell is not exhausted. */
  lemma OneCellFitsAbove(shape: seq<Cell>, pc: Cell, occupied: set<Cell>)
    requires |shape| == 1 && Cell(pc.row - 1, pc.col) !in occupied
    ensures !Exhausted(shape, pc, occupied)
  {
    var nbr := Cell(pc.row - 1, pc.col);
    var off := Candidate(nbr, shape[0]);
    assert Adjacent(pc, nbr);
    assert Fits(shape, off, occupied);
  }

  /**
   * Two towns of one place each always dock: town 1 is a single cell, the cell above it is free,
   * and the one-cell shape of town 2 fits there, so no picked cell can be exhausted.
   */
  lemma SingleCellTownsDock(stuck: Stuck, parent: map<nat, nat>)
    ensures !FailedDocking(stuck, 2, parent, 1, 1)
  {
    if FailedDocking(stuck, 2, parent, 1, 1) {
      var one := Label(1, 1);
      assert ValidLabel(one, stuck.townPlaces);
      var g0 := stuck.cellOf[one];
      forall g | g in stuck.placed
        ensures g == g0
      {
        var l := stuck.placed[g];
        assert ValidLabel(l, stuck.townPlaces);
      }
      OneCellFitsAbove(stuck.shape, stuck.picks[0], stuck.placed.Keys);
      assert false;
    }
  }

  lemma EmptyAtStart(globalMap: map<Cell, Label>, cellOf: map<Label, Cell>, townCells: map<nat, set<Cell>>,
                     townPlaces: map<nat, nat>, parent: map<nat, nat>, minP: nat, maxP: nat)
    requires Built(globalMap, cellOf, townCells, townPlaces, parent, 0, minP, maxP)
    ensures globalMap == map[]
  {
    assert forall g :: g in globalMap ==> ValidLabel(globalMap[g], townPlaces);
    assert forall g :: g !in globalMap;
  }

  /** Every place moved by (-minR, -minC). */
  ghost function Moved(cellOf: map<Label, Cell>, minR: int, minC: int): map<Label, Cell>
  {
    map l | l in cellOf :: Relative(cellOf[l], minR, minC)
  }

  /** The towns keep their shapes when every place is moved relative to the bounding box's corner. */
  lemma ShapedAfterMove(cellOf: map<Label, Cell>, townPlaces: map<nat, nat>, corner: Cell, where: map<Label, Cell>)
    requires Shaped(cellOf, townPlaces) && where == Moved(cellOf, corner.row, corner.col)
    ensures Shaped(where, townPlaces)
  {
    MovedIsShift(cellOf, corner.row, corner.col);
    ShapedMoved(cellOf, townPlaces, Cell(-corner.row, -corner.col), where);
  }

  /** Moving the places relative to (minR, minC) is a shift of every place by (-minR, -minC). */
  lemma MovedIsShift(cellOf: map<Label, Cell>, minR: int, minC: int)
    ensures Moved(cellOf, minR, minC).Keys == cellOf.Keys
    ensures forall l :: l in cellOf ==> Moved(cellOf, minR, minC)[l] == Shift(cellOf[l], Cell(-minR, -minC))
  {
  }

  /**
   * The dense grid and the start location of a fully placed map: every place has its own cell
   * holding its label, the grid is the bounding box of the places, towns still touch their
   * parents, and the start location indexes "1:1".
   */
  method Finish(globalMap: map<Cell, Label>, ghost cellOf: map<Label, Cell>, townPlaces: map<nat, nat>,
                ghost parent: map<nat, nat>, ghost n: nat, first: Cell)
    returns (generated: GeneratedMap, ghost where: map<Label, Cell>, ghost corner: Cell)
    requires Labelled(globalMap, cellOf, townPlaces) && Docked(cellOf, parent, n)
    requires first in globalMap && globalMap[first] == Label(1, 1)
    ensures generated.townPlaces == townPlaces
    // every place is moved by the one offset that brings the bounding box's corner to (0, 0)
    ensures where == Moved(cellOf, corner.row, corner.col)
    ensures LaidOut(generated.grid, townPlaces, where) && Tight(generated.grid, where) && Docked(where, parent, n)
    ensures StartAt(generated.start, where)
    ensures StartsOnOneOne(generated.grid, generated.start)
  {
    var grid, minR, minC := AssembleGrid(globalMap);
    var start := Location(first.col - minC + 1, first.row - minR + 1);
    generated := GeneratedMap(grid, townPlaces, start);
    where := Moved(cellOf, minR, minC);
    assert RelativeTo(where, cellOf, minR, minC);
    ShiftedLabelled(globalMap, cellOf, townPlaces, minR, minC, where);
    LaidOutFromGrid(Shifted(globalMap, minR, minC), where, townPlaces, grid);
    TightFromGrid(Shifted(globalMap, minR, minC), where, townPlaces, grid);
    DockedRelative(cellOf, parent, n, minR, minC, where);
    ShiftedAt(globalMap, minR, minC, first);
    StartFromFirst(Shifted(globalMap, minR, minC), where, townPlaces, grid, Relative(first, minR, minC));
    corner := Cell(minR, minC);
  }

  /**
   * Placing a town whose shape fits keeps the whole invariant, keeps every town shaped, and leaves
   * the towns placed before it where they were.
   */
  lemma TownPlaced(globalMap: map<Cell, Label>, cellOf: map<Label, Cell>, townCells: map<nat, set<Cell>>,
                   townPlaces: map<nat, nat>, parent: map<nat, nat>, t: nat, minP: nat, maxP: nat,
                   shape: seq<Cell>, off: Cell, newMap: map<Cell, Label>, placed: set<Cell>)
    requires t >= 1 && Built(globalMap, cellOf, townCells, townPlaces, parent, t - 1, minP, maxP)
    requires Shaped(cellOf, townPlaces)
    requires minP <= |shape| <= maxP && StrictlyRowMajor(shape) && Contiguous(shape)
    requires Fits(shape, off, globalMap.Keys)
    requires t >= 2 ==> t in parent && parent[t] in townCells && Touches(shape, off, townCells[parent[t]])
    requires forall g :: g in placed <==> exists i :: 0 <= i < |shape| && g == Shift(shape[i], off)
    requires newMap.Keys == globalMap.Keys + placed
    requires forall g :: g in globalMap && g !in placed ==> newMap[g] == globalMap[g]
    requires forall g :: g in placed ==> newMap[g].town == t
    requires forall i :: 0 <= i < |shape| ==> newMap[Shift(shape[i], off)] == Label(t, i + 1)
    ensures Built(newMap, cellOf + NewPlaces(t, shape, off), townCells[t := placed], townPlaces[t := |shape|], parent, t, minP, maxP)
    ensures Shaped(cellOf + NewPlaces(t, shape, off), townPlaces[t := |shape|])
    ensures forall g :: g in globalMap ==> g in newMap && newMap[g] == globalMap[g]
  {
    StrictlyRowMajorDistinct(shape);
    PlaceStep(globalMap, cellOf, townCells, townPlaces, parent, t, minP, maxP, shape, off, newMap, placed);
    PlacedWereFree(globalMap, shape, off, placed);
    ShapedStep(cellOf, townPlaces, t, shape, off);
  }

  /**
   * The first half of one pass of `generate_map`'s town loop: draw the place count, grow the shape,
   * and choose where it goes: (0, 0) for town 1, the docking search's first fit next to the parent
   * town for the others. When the search fails, `stuck` records where it stood.
   */
  method ShapeAndOffset(town: nat, numTowns: nat, minPlaces: nat, maxPlaces: nat, townParent: map<nat, nat>,
                        rng: Stream, pos: nat, globalMap: map<Cell, Label>, townCells: map<nat, set<Cell>>,
                        ghost townPlaces: map<nat, nat>, ghost cellOf: map<Label, Cell>)
    returns (found: bool, numPlaces: nat, shape: seq<Cell>, offset: Cell, next: nat, ghost stuck: Stuck)
    requires 1 <= town <= numTowns && 1 <= minPlaces <= maxPlaces && ParentTable(townParent, numTowns)
    requires Built(globalMap, cellOf, townCells, townPlaces, townParent, town - 1, minPlaces, maxPlaces)
    ensures minPlaces <= numPlaces <= maxPlaces && |shape| == numPlaces
    ensures StrictlyRowMajor(shape) && Normalized(shape) && Contiguous(shape) && shape[0].row == 0
    ensures found ==>
      && Fits(shape, offset, globalMap.Keys)
      && (town == 1 ==> offset == Cell(0, 0))
      && (town >= 2 ==> townParent[town] in townCells && Touches(shape, offset, townCells[townParent[town]]))
    ensures !found ==>
      && town >= 2 && FailedDocking(stuck, town, townParent, minPlaces, maxPlaces)
      && stuck == Stuck(shape, stuck.growth, globalMap, cellOf, townCells, townPlaces, stuck.picks)
  {
    found, offset, stuck := true, Cell(0, 0), Stuck([], [], map[], map[], map[], map[], []);
    numPlaces := RandInt(rng, pos, minPlaces, maxPlaces);
    next := pos + 1;
    ghost var growth: seq<Cell>;
    shape, next, growth := GenerateContiguousShape(numPlaces, rng, next);
    assert GrownByAdjacency(growth) && |growth| == |shape| && forall c :: c in growth <==> c in shape;
    if town == 1 {
      EmptyAtStart(globalMap, cellOf, townCells, townPlaces, townParent, minPlaces, maxPlaces);
    } else {
      ParentHasCells(globalMap, cellOf, townCells, townPlaces, townParent, town - 1, minPlaces, maxPlaces, townParent[town]);
      var dock: Option<Cell>;
      var attempts: nat;
      ghost var picks, lastNeighbors;
      dock, attempts, next, picks, lastNeighbors := Dock(shape, townCells[townParent[town]], globalMap.Keys, rng, next);
      if dock.None? {
        DockFailed(globalMap, cellOf, townCells, townPlaces, townParent, town, minPlaces, maxPlaces, shape, growth, picks);
        stuck := Stuck(shape, growth, globalMap, cellOf, townCells, townPlaces, picks);
        found := false;
        return;
      }
      offset := dock.value;
    }
  }

  /**
   * One pass of `generate_map`'s town loop: the shape and offset from `ShapeAndOffset`, then the
   * town's places labelled "town:1".."town:k" on the moved shape cells. Either the state is extended
   * by exactly the new town, or the docking search failed and `stuck` records where it stood.
   */
  method PlaceNextTown(town: nat, numTowns: nat, minPlaces: nat, maxPlaces: nat, townParent: map<nat, nat>,
                       rng: Stream, pos: nat, globalMap: map<Cell, Label>, townCells: map<nat, set<Cell>>,
                       townPlaces: map<nat, nat>, first: Option<Cell>, ghost cellOf: map<Label, Cell>)
    returns (placed: bool, next: nat, newMap: map<Cell, Label>, newTownCells: map<nat, set<Cell>>,
             newTownPlaces: map<nat, nat>, newFirst: Option<Cell>, ghost newCellOf: map<Label, Cell>,
             ghost shape: seq<Cell>, ghost offset: Cell, ghost stuck: Stuck)
    requires 1 <= town <= numTowns && 1 <= minPlaces <= maxPlaces && ParentTable(townParent, numTowns)
    requires Built(globalMap, cellOf, townCells, townPlaces, townParent, town - 1, minPlaces, maxPlaces)
    requires Shaped(cellOf, townPlaces)
    requires first.None? <==> town == 1
    requires first.Some? ==> first.value in globalMap && globalMap[first.value] == Label(1, 1) && first.value.row == 0
    ensures minPlaces <= |shape| <= maxPlaces && StrictlyRowMajor(shape) && Normalized(shape) && Contiguous(shape)
    // the town goes in at (0, 0) or on a free spot next to its parent, and only its own cells and labels are added
    ensures placed ==>
      && Fits(shape, offset, globalMap.Keys)
      && (town == 1 ==> offset == Cell(0, 0))
      && (town >= 2 ==> townParent[town] in townCells && Touches(shape, offset, townCells[townParent[town]]))
      && newCellOf == cellOf + NewPlaces(town, shape, offset)
      && newTownPlaces == townPlaces[town := |shape|]
      && town in newTownCells && newTownCells == townCells[town := newTownCells[town]]
      && (forall g :: g in newTownCells[town] <==> exists i :: 0 <= i < |shape| && g == Shift(shape[i], offset))
      && newMap.Keys == globalMap.Keys + newTownCells[town]
      && (forall g :: g in globalMap ==> g in newMap && newMap[g] == globalMap[g])
      && (forall i :: 0 <= i < |shape| ==> Shift(shape[i], offset) in newMap && newMap[Shift(shape[i], offset)] == Label(town, i + 1))
    ensures placed ==>
      && Built(newMap, newCellOf, newTownCells, newTownPlaces, townParent, town, minPlaces, maxPlaces)
      && Shaped(newCellOf, newTownPlaces)
      && newFirst.Some? && newFirst.value in newMap && newMap[newFirst.value] == Label(1, 1) && newFirst.value.row == 0
    ensures !placed ==>
      && town >= 2 && FailedDocking(stuck, town, townParent, minPlaces, maxPlaces)
      && stuck == Stuck(shape, stuck.growth, globalMap, cellOf, townCells, townPlaces, stuck.picks)
  {
    newMap, newTownCells, newTownPlaces, newFirst, newCellOf := globalMap, townCells, townPlaces, first, cellOf;
    var numPlaces, townShape, townOffset;
    placed, numPlaces, townShape, townOffset, next, stuck :=
      ShapeAndOffset(town, numTowns, minPlaces, maxPlaces, townParent, rng, pos, globalMap, townCells, townPlaces, cellOf);
    shape, offset := townShape, townOffset;
    if placed {
      newMap, newTownCells, newTownPlaces, newFirst, newCellOf :=
        AddTown(town, townShape, townOffset, townParent, minPlaces, maxPlaces, globalMap, townCells, townPlaces, first, cellOf);
    }
  }

  /**
   * The second half of one pass of `generate_map`'s town loop: write the town's labels onto the
   * cells its shape covers once moved by `offset`, and record its cells and place count.
   */
  method AddTown(town: nat, shape: seq<Cell>, offset: Cell, townParent: map<nat, nat>, minPlaces: nat, maxPlaces: nat,
                 globalMap: map<Cell, Label>, townCells: map<nat, set<Cell>>, townPlaces: map<nat, nat>,
                 first: Option<Cell>, ghost cellOf: map<Label, Cell>)
    returns (newMap: map<Cell, Label>, newTownCells: map<nat, set<Cell>>, newTownPlaces: map<nat, nat>,
             newFirst: Option<Cell>, ghost newCellOf: map<Label, Cell>)
    requires town >= 1 && Built(globalMap, cellOf, townCells, townPlaces, townParent, town - 1, minPlaces, maxPlaces)
    requires Shaped(cellOf, townPlaces)
    requires 1 <= minPlaces <= |shape| <= maxPlaces && StrictlyRowMajor(shape) && Contiguous(shape)
    requires Fits(shape, offset, globalMap.Keys)
    requires town >= 2 ==> town in townParent && townParent[town] in townCells && Touches(shape, offset, townCells[townParent[town]])
    requires first.None? <==> town == 1
    requires town == 1 ==> shape[0].row == 0 && offset == Cell(0, 0)
    requires first.Some? ==> first.value in globalMap && globalMap[first.value] == Label(1, 1) && first.value.row == 0
    ensures newCellOf == cellOf + NewPlaces(town, shape, offset)
    ensures newTownPlaces == townPlaces[town := |shape|]
    ensures town in newTownCells && newTownCells == townCells[town := newTownCells[town]]
    ensures forall g :: g in newTownCells[town] <==> exists i :: 0 <= i < |shape| && g == Shift(shape[i], offset)
    ensures newMap.Keys == globalMap.Keys + newTownCells[town]
    ensures forall g :: g in globalMap ==> g in newMap && newMap[g] == globalMap[g]
    ensures forall i :: 0 <= i < |shape| ==> Shift(shape[i], offset) in newMap && newMap[Shift(shape[i], offset)] == Label(town, i + 1)
    ensures Built(newMap, newCellOf, newTownCells, newTownPlaces, townParent, town, minPlaces, maxPlaces)
    ensures Shaped(newCellOf, newTownPlaces)
    ensures newFirst.Some? && newFirst.value in newMap && newMap[newFirst.value] == Label(1, 1) && newFirst.value.row == 0
  {
    var placedCells: set<Cell>;
    StrictlyRowMajorDistinct(shape);
    newMap, placedCells, newFirst := PlaceTown(town, shape, offset, globalMap, first);
    TownPlaced(globalMap, cellOf, townCells, townPlaces, townParent, town, minPlaces, maxPlaces,
               shape, offset, newMap, placedCells);
    newCellOf := cellOf + NewPlaces(town, shape, offset);
    newTownCells := townCells[town := placedCells];
    newTownPlaces := townPlaces[town := |shape|];
  }

  /**
   * The town loop of `generate_map`: towns 1..numTowns placed in order. Either all are placed, and
   * `first` is the cell labelled "1:1", or the first town that could not be docked is reported.
   */
  method PlaceTowns(numTowns: nat, minPlaces: nat, maxPlaces: nat, townParent: map<nat, nat>, rng: Stream, pos: nat)
    returns (failedTown: Option<nat>, next: nat, globalMap: map<Cell, Label>, townPlaces: map<nat, nat>, first: Cell,
             ghost cellOf: map<Label, Cell>, ghost stuck: Stuck)
    requires numTowns >= 1 && 1 <= minPlaces <= maxPlaces && ParentTable(townParent, numTowns)
    ensures failedTown.None? ==>
      && Counted(townPlaces, numTowns, minPlaces, maxPlaces)
      && Labelled(globalMap, cellOf, townPlaces) && Docked(cellOf, townParent, numTowns)
      && Shaped(cellOf, townPlaces)
      && first in globalMap && globalMap[first] == Label(1, 1)
    ensures failedTown.Some? ==>
      && 2 <= failedTown.value <= numTowns
      && FailedDocking(stuck, failedTown.value, townParent, minPlaces, maxPlaces)
  {
    next, globalMap, townPlaces, first, failedTown := pos, map[], map[], Cell(0, 0), None;
    var townCells: map<nat, set<Cell>> := map[];
    var firstCell: Option<Cell> := None;
    cellOf, stuck := map[], Stuck([], [], map[], map[], map[], map[], []);
    for town := 1 to numTowns + 1
      invariant Built(globalMap, cellOf, townCells, townPlaces, townParent, town - 1, minPlaces, maxPlaces)
      invariant Shaped(cellOf, townPlaces)
      invariant firstCell.None? <==> town == 1
      invariant firstCell.Some? ==> firstCell.value in globalMap && globalMap[firstCell.value] == Label(1, 1) && firstCell.value.row == 0
    {
      var placed: bool;
      ghost var shape, offset;
      placed, next, globalMap, townCells, townPlaces, firstCell, cellOf, shape, offset, stuck :=
        PlaceNextTown(town, numTowns, minPlaces, maxPlaces, townParent, rng, next, globalMap, townCells, townPlaces, firstCell, cellOf);
      if !placed {
        return Some(town), next, globalMap, townPlaces, first, cellOf, stuck;
      }
    }
    // `first` is always set once town 1 is placed: `generate_map`'s RuntimeError for a missing "1:1" cannot happen
    assert firstCell.Some?;
    first := firstCell.value;
  }

  /**
   * `generate_map(num_towns, min_places, max_places)`. On success: every town 1..num_towns has a
   * place count in [min_places, max_places]; every place has its own grid cell holding "town:place"
   * (`where`), all other cells are ""; the grid is the bounding box of the places; every town
   * after the first has a place 4-adjacent to a place of its parent, which is a lower-numbered town;
   * and the start location indexes "1:1". It fails when there are no towns, when the place range is
   * empty, or when the docking search could not place a town; then no map is returned.
   */
  method GenerateMap(numTowns: nat, minPlaces: nat, maxPlaces: nat, rng: Stream, pos: nat)
    returns (result: Result<GeneratedMap, MapError>, ghost parent: map<nat, nat>, ghost where: map<Label, Cell>,
             ghost stuck: Stuck)
    requires minPlaces >= 1
    ensures ParentTable(parent, numTowns)
    ensures result == Err(NoTowns) <==> numTowns == 0
    ensures result == Err(EmptyRange) <==> numTowns >= 1 && minPlaces > maxPlaces
    ensures numTowns == 1 && minPlaces <= maxPlaces ==> result.Ok?
    ensures numTowns == 2 && minPlaces == 1 && maxPlaces == 1 ==> result.Ok?
    // a town is reported unplaceable only after 200 parent cells of its parent, picked at random,
    // each gave no fitting offset against the towns placed before it
    ensures result.Err? && result.error.PlacementFailed? ==>
      && 2 <= result.error.town <= numTowns
      && FailedDocking(stuck, result.error.town, parent, minPlaces, maxPlaces)
    ensures result.Ok? ==>
      && Counted(result.value.townPlaces, numTowns, minPlaces, maxPlaces)
      && LaidOut(result.value.grid, result.value.townPlaces, where)
      && Tight(result.value.grid, where)
      && Docked(where, parent, numTowns)
      && Shaped(where, result.value.townPlaces)
      && StartAt(result.value.start, where)
      && StartsOnOneOne(result.value.grid, result.value.start)
  {
    var townParent, next := PlanParents(numTowns, rng, pos);
    parent, where, stuck := townParent, map[], Stuck([], [], map[], map[], map[], map[], []);
    if numTowns == 0 {
      return Err(NoTowns), parent, where, stuck;
    }
    if minPlaces > maxPlaces {
      return Err(EmptyRange), parent, where, stuck;
    }
    var failedTown: Option<nat>, globalMap, townPlaces, first;
    ghost var cellOf;
    failedTown, next, globalMap, townPlaces, first, cellOf, stuck :=
      PlaceTowns(numTowns, minPlaces, maxPlaces, townParent, rng, next);
    if failedTown.Some? {
      SingleCellTownsDock(stuck, townParent);
      return Err(PlacementFailed(failedTown.value)), parent, where, stuck;
    }
    var generated;
    ghost var corner;
    generated, where, corner := Finish(globalMap, cellOf, townPlaces, townParent, numTowns, first);
    ShapedAfterMove(cellOf, townPlaces, corner, where);
    result := Ok(generated);
  }
}
