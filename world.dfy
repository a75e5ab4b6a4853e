/**
 * WorldModel: the game world of one chat. A fixed 9x9 board of five 3x3 towns, the player's
 * location on it (0-based, read as `board[x][y]`), the places and NPCs keyed by their
 * "town:place" label, the list of towns, and a three-state status.
 */
module WorldModel {
  import opened Wrappers
  import opened Strings
  import opened Decimal

  /** A board coordinate, read as `board[x][y]`. */
  datatype Point = Point(x: int, y: int)

  datatype Town = Town(name: string, description: string, imagePrompt: string)

  datatype Place = Place(description: string)

  datatype Npc = Npc(description: string, appearance: string)

  datatype WorldStatus = NotStarted | Creating | Started

  /** The Python exceptions the lookups can raise. */
  datatype Failure = AttributeError | TypeError | KeyError | ValueError | IndexError

  /** What `get_current_place` returns. */
  datatype CurrentPlace = CurrentPlace(townIndex: int, town: Town, placeKey: string, place: Place)

  /** Python's `xs[i]`: negative indices count from the end, and out-of-range indices raise. */
  function PyIndex<T>(xs: seq<T>, i: int): (r: Option<T>)
    ensures r.Some? <==> -|xs| <= i < |xs|
    ensures 0 <= i < |xs| ==> r == Some(xs[i])
    ensures -|xs| <= i < 0 ==> r == Some(xs[|xs| + i])
  {
    if 0 <= i < |xs| then Some(xs[i]) else if -|xs| <= i < 0 then Some(xs[|xs| + i]) else None
  }

  // ---------------------------------------------------------------- the fixed board

  /** A block of the board: rows rowStart..rowEnd-1 and columns colStart..colEnd-1, 1-based. */
  datatype Region = Region(rowStart: nat, rowEnd: nat, colStart: nat, colEnd: nat, id: nat)

  const Size: nat := 9

  const Regions: seq<Region> := [
    Region(4, 7, 4, 7, 1),
    Region(1, 4, 4, 7, 2),
    Region(4, 7, 1, 4, 3),
    Region(4, 7, 7, 10, 4),
    Region(7, 10, 4, 7, 5)
  ]

  predicate OnBoard(g: Region)
  {
    1 <= g.rowStart <= g.rowEnd <= Size + 1 && 1 <= g.colStart <= g.colEnd <= Size + 1
  }

  /** Board cell (r, c), 0-based, lies in region g. */
  predicate InRegion(g: Region, r: int, c: int)
  {
    g.rowStart <= r + 1 < g.rowEnd && g.colStart <= c + 1 < g.colEnd
  }

  /** The running counter when region g reaches cell (r, c): its 1-based row-major position in g. */
  function Counter(g: Region, r: int, c: int): (k: nat)
    requires InRegion(g, r, c)
    ensures k >= 1
  {
    var w: nat := g.colEnd - g.colStart;
    var i: nat := r + 1 - g.rowStart;
    var j: nat := c + 1 - g.colStart;
    i * w + j + 1
  }

  function RegionLabel(g: Region, r: int, c: int): string
    requires InRegion(g, r, c)
  {
    LabelText(g.id, Counter(g, r, c))
  }

  /** Cell (r, c) after the first n regions are written: the label of the last of them covering it, or "". */
  function Layer(n: nat, r: int, c: int): string
    requires n <= |Regions|
  {
    if n == 0 then ""
    else if InRegion(Regions[n - 1], r, c) then RegionLabel(Regions[n - 1], r, c)
    else Layer(n - 1, r, c)
  }

  /** The board `init_map` builds. */
  function InitialBoard(): (board: seq<seq<string>>)
    ensures |board| == Size && forall r :: 0 <= r < Size ==> |board[r]| == Size
  {
    seq(Size, r => seq(Size, c => Layer(|Regions|, r, c)))
  }

  /** Row x of the board, 0-based, holds `board[x][y]` for every y. */
  predicate Square(board: seq<seq<string>>)
  {
    forall x :: 0 <= x < |board| ==> |board[x]| == |board|
  }

  /** Rows of the board, each of Size cells. */
  predicate Dims(board: seq<seq<string>>)
  {
    |board| == Size && forall r :: 0 <= r < Size ==> |board[r]| == Size
  }

  /** Region g reaches cell (r, c) before cell (row, col) in its row-by-row walk (all 1-based). */
  predicate Visited(g: Region, r: int, c: int, row: int, col: int)
  {
    InRegion(g, r, c) && (r + 1 < row || (r + 1 == row && c + 1 < col))
  }

  /**
   * The board while region i is written: the first i regions are done, and region i has written
   * the cells it visits before (row, col).
   */
  ghost predicate Written(board: seq<seq<string>>, i: nat, row: int, col: int)
    requires i < |Regions|
  {
    Dims(board) &&
    forall r, c :: 0 <= r < Size && 0 <= c < Size ==>
      board[r][c] == (if Visited(Regions[i], r, c, row, col) then RegionLabel(Regions[i], r, c) else Layer(i, r, c))
  }

  lemma WriteCell(board: seq<seq<string>>, i: nat, row: nat, col: nat)
    requires i < |Regions| && Written(board, i, row, col)
    requires InRegion(Regions[i], row - 1, col - 1) && 1 <= row && 1 <= col
    ensures Written(board[row - 1 := board[row - 1][col - 1 := RegionLabel(Regions[i], row - 1, col - 1)]], i, row, col + 1)
  {
    var g := Regions[i];
    assert OnBoard(g);
    var b := board[row - 1 := board[row - 1][col - 1 := RegionLabel(g, row - 1, col - 1)]];
    assert Dims(b);
    forall r, c | 0 <= r < Size && 0 <= c < Size
      ensures b[r][c] == (if Visited(g, r, c, row, col + 1) then RegionLabel(g, r, c) else Layer(i, r, c))
    {
      if r != row - 1 || c != col - 1 {
        assert b[r][c] == board[r][c];
        assert Visited(g, r, c, row, col + 1) == Visited(g, r, c, row, col);
      }
    }
  }

  lemma NextRow(board: seq<seq<string>>, i: nat, row: int)
    requires i < |Regions| && Written(board, i, row, Regions[i].colEnd)
    ensures Written(board, i, row + 1, Regions[i].colStart)
  {
  }

  lemma RegionDone(board: seq<seq<string>>, i: nat)
    requires i < |Regions| && Written(board, i, Regions[i].rowEnd, Regions[i].colStart)
    ensures Dims(board) && forall r, c :: 0 <= r < Size && 0 <= c < Size ==> board[r][c] == Layer(i + 1, r, c)
  {
  }

  lemma RowCounter(k: int, width: int)
    ensures k * width + width == (k + 1) * width
  {
  }

  /** One iteration of the region loop of `init_map`: writes "id:1", "id:2", ... over region i, row by row. */
  method WriteRegion(board: seq<seq<string>>, i: nat) returns (board': seq<seq<string>>)
    requires i < |Regions| && Dims(board) && forall r, c :: 0 <= r < Size && 0 <= c < Size ==> board[r][c] == Layer(i, r, c)
    ensures Dims(board') && forall r, c :: 0 <= r < Size && 0 <= c < Size ==> board'[r][c] == Layer(i + 1, r, c)
  {
    var g := Regions[i];
    assert OnBoard(g);
    board' := board;
    var counter := 1;
    for row := g.rowStart to g.rowEnd
      invariant counter == (row - g.rowStart) * (g.colEnd - g.colStart) + 1
      invariant Written(board', i, row, g.colStart)
    {
      for col := g.colStart to g.colEnd
        invariant counter == (row - g.rowStart) * (g.colEnd - g.colStart) + (col - g.colStart) + 1
        invariant Written(board', i, row, col)
      {
        assert counter == Counter(g, row - 1, col - 1);
        WriteCell(board', i, row, col);
        board' := board'[row - 1 := board'[row - 1][col - 1 := LabelText(g.id, counter)]];
        counter := counter + 1;
      }
      RowCounter(row - g.rowStart, g.colEnd - g.colStart);
      NextRow(board', i, row);
    }
    RegionDone(board', i);
  }

  /** The nested loops of `init_map`: a 9x9 board of "", then each region in turn writes its labels. */
  method BuildBoard() returns (board: seq<seq<string>>)
    ensures board == InitialBoard()
  {
    board := seq(Size, _ => seq(Size, _ => ""));
    for i := 0 to |Regions|
      invariant Dims(board)
      invariant forall r, c :: 0 <= r < Size && 0 <= c < Size ==> board[r][c] == Layer(i, r, c)
    {
      board := WriteRegion(board, i);
    }
    forall r | 0 <= r < Size ensures board[r] == InitialBoard()[r] {
      assert forall c :: 0 <= c < Size ==> board[r][c] == InitialBoard()[r][c];
    }
  }

  /** The five regions are pairwise disjoint. */
  lemma RegionsDisjoint(i: nat, j: nat, r: int, c: int)
    requires i < j < |Regions| && InRegion(Regions[i], r, c)
    ensures !InRegion(Regions[j], r, c)
  {
  }

  /** A cell covered by region i keeps that region's label whatever regions are written after it. */
  lemma {:induction false} LayerOfOwner(n: nat, i: nat, r: int, c: int)
    requires i < n <= |Regions| && InRegion(Regions[i], r, c)
    ensures Layer(n, r, c) == RegionLabel(Regions[i], r, c)
  {
    if n - 1 != i {
      RegionsDisjoint(i, n - 1, r, c);
      LayerOfOwner(n - 1, i, r, c);
    }
  }

  /** A cell carries a label exactly when one of the regions written so far covers it. */
  lemma {:induction false} LayerLabelled(n: nat, r: int, c: int)
    requires n <= |Regions|
    ensures Layer(n, r, c) != "" <==> exists i :: 0 <= i < n && InRegion(Regions[i], r, c)
  {
    if n > 0 {
      LayerLabelled(n - 1, r, c);
      if InRegion(Regions[n - 1], r, c) {
        assert ':' in Layer(n, r, c);
      }
    }
  }

  /** A cell covered by no region stays "". */
  lemma {:induction false} LayerOfNone(n: nat, r: int, c: int)
    requires n <= |Regions| && forall i :: 0 <= i < n ==> !InRegion(Regions[i], r, c)
    ensures Layer(n, r, c) == ""
  {
    if n > 0 {
      LayerOfNone(n - 1, r, c);
    }
  }

  /**
   * Region i holds "id:1" .. "id:9" in row-major order: the k-th label (1-based) is at row
   * rowStart - 1 + (k - 1) / 3, column colStart - 1 + (k - 1) % 3 of the board.
   */
  lemma BoardRegionLabels(i: nat, k: nat)
    requires i < |Regions| && 1 <= k <= 9
    ensures var g := Regions[i];
      InitialBoard()[g.rowStart - 1 + (k - 1) / 3][g.colStart - 1 + (k - 1) % 3] == LabelText(g.id, k)
  {
    var g := Regions[i];
    var r, c := g.rowStart - 1 + (k - 1) / 3, g.colStart - 1 + (k - 1) % 3;
    assert InRegion(g, r, c) && Counter(g, r, c) == k;
    LayerOfOwner(|Regions|, i, r, c);
  }

  /** Every cell outside the five regions is "". */
  lemma BoardOutsideEmpty(r: nat, c: nat)
    requires r < Size && c < Size && forall i :: 0 <= i < |Regions| ==> !InRegion(Regions[i], r, c)
    ensures InitialBoard()[r][c] == ""
  {
    LayerOfNone(|Regions|, r, c);
  }

  /** A non-empty cell of the board is the label "id:k" of the one region covering it, with 1 <= k <= 9. */
  lemma BoardCellLabel(r: nat, c: nat)
    requires r < Size && c < Size && InitialBoard()[r][c] != ""
    ensures exists i :: (0 <= i < |Regions| && InRegion(Regions[i], r, c) &&
                         InitialBoard()[r][c] == LabelText(Regions[i].id, Counter(Regions[i], r, c)))
  {
    if forall i :: 0 <= i < |Regions| ==> !InRegion(Regions[i], r, c) {
      LayerOfNone(|Regions|, r, c);
    } else {
      var i :| 0 <= i < |Regions| && InRegion(Regions[i], r, c);
      LayerOfOwner(|Regions|, i, r, c);
    }
  }

  /** The centre (4, 4) is place 5 of town 1. */
  lemma CentreIsOneFive()
    ensures InitialBoard()[4][4] == "1:5"
  {
    LayerOfOwner(|Regions|, 0, 4, 4);
    assert Counter(Regions[0], 4, 4) == 5;
    assert LabelText(1, 5) == "1:5";
  }

  // ---------------------------------------------------------------- the world object

  class World {
    var board: Option<seq<seq<string>>>
    var location: Option<Point>
    var placesDict: map<string, Place>
    var npcsDict: map<string, seq<Npc>>
    var towns: Option<seq<Town>>
    var status: WorldStatus
    var currentTown: Option<Town>

    /** A new world has no board, no location, no towns, no places or NPCs, and has not started. */
    constructor()
      ensures status == NotStarted && IsNotStarted() && !IsCreating() && !IsStarted()
      ensures board.None? && location.None? && towns.None? && currentTown.None?
      ensures placesDict == map[] && npcsDict == map[]
    {
      board := None;
      location := None;
      placesDict := map[];
      npcsDict := map[];
      towns := None;
      status := NotStarted;
      currentTown := None;
    }

    /** `init_map`: builds the fixed board, stores it and the centre location, and returns both. */
    method InitMap() returns (b: seq<seq<string>>, loc: Point)
      modifies this
      ensures b == InitialBoard() && loc == Point(4, 4)
      ensures board == Some(b) && location == Some(loc)
      ensures placesDict == old(placesDict) && npcsDict == old(npcsDict) && towns == old(towns)
      ensures status == old(status) && currentTown == old(currentTown)
    {
      b := BuildBoard();
      loc := Point(|b[0]| / 2, |b| / 2);
      board := Some(b);
      location := Some(loc);
    }

    /** `init_npc_dict`: every place gets an empty NPC list; NPC lists of other keys are kept. */
    method InitNpcDict()
      modifies this
      ensures forall k :: k in npcsDict <==> k in old(npcsDict) || k in placesDict
      ensures forall k :: k in placesDict ==> npcsDict[k] == []
      ensures forall k :: k in old(npcsDict) && k !in placesDict ==> npcsDict[k] == old(npcsDict)[k]
      ensures board == old(board) && location == old(location) && placesDict == old(placesDict)
      ensures towns == old(towns) && status == old(status) && currentTown == old(currentTown)
    {
      var npcs, places := npcsDict, placesDict;
      var rest := places.Keys;
      while rest != {}
        invariant rest <= places.Keys
        invariant forall k :: k in npcs <==> k in old(npcsDict) || (k in places && k !in rest)
        invariant forall k :: k in places && k !in rest ==> npcs[k] == []
        invariant forall k :: k in old(npcsDict) && (k !in places || k in rest) ==> npcs[k] == old(npcsDict)[k]
        decreases |rest|
      {
        var k :| k in rest;
        npcs := npcs[k := []];
        rest := rest - {k};
      }
      npcsDict := npcs;
    }

    /** `get_place_key`: the label of the board cell at the location, `board[x][y]`. */
    function PlaceKey(): (r: Result<string, Failure>)
      reads this`location, this`board
      ensures location.None? ==> r == Err(AttributeError)
      ensures location.Some? && board.None? ==> r == Err(TypeError)
      ensures (location.Some? && board.Some? && 0 <= location.value.x < |board.value| &&
               0 <= location.value.y < |board.value[location.value.x]|) ==>
              r == Ok(board.value[location.value.x][location.value.y])
    {
      if location.None? then Err(AttributeError)
      else if board.None? then Err(TypeError)
      else match PyIndex(board.value, location.value.x)
        case None => Err(IndexError)
        case Some(row) =>
          match PyIndex(row, location.value.y)
            case None => Err(IndexError)
            case Some(key) => Ok(key)
    }

    /**
     * `get_current_place`: the place under the location, and its town, found by reading the number
     * before ':' in the label and subtracting one.
     */
    function GetCurrentPlace(): (r: Result<CurrentPlace, Failure>)
      reads this`location, this`board, this`placesDict, this`towns
      ensures r.Ok? ==> PlaceKey() == Ok(r.value.placeKey)
      ensures r.Ok? ==> r.value.placeKey in placesDict && r.value.place == placesDict[r.value.placeKey]
      ensures r.Ok? ==> ParseNat(Before(r.value.placeKey, ':')) == Some(r.value.townIndex + 1)
      ensures r.Ok? ==> towns.Some? && PyIndex(towns.value, r.value.townIndex) == Some(r.value.town)
      ensures PlaceKey().Ok? && PlaceKey().value !in placesDict ==> r == Err(KeyError)
    {
      match PlaceKey()
      case Err(e) => Err(e)
      case Ok(key) =>
        if key !in placesDict then Err(KeyError)
        else match ParseNat(Before(key, ':'))
          case None => Err(ValueError)
          case Some(n) =>
            var townIndex := n - 1;
            if towns.None? then Err(TypeError)
            else match PyIndex(towns.value, townIndex)
              case None => Err(IndexError)
              case Some(town) => Ok(CurrentPlace(townIndex, town, key, placesDict[key]))
    }

    /** `get_npcs`: the NPC list of the current place. */
    function GetNpcs(): (r: Result<seq<Npc>, Failure>)
      reads this
      ensures r.Ok? <==> PlaceKey().Ok? && PlaceKey().value in npcsDict
      ensures r.Ok? ==> r.value == npcsDict[PlaceKey().value]
    {
      match PlaceKey()
      case Err(e) => Err(e)
      case Ok(key) => if key in npcsDict then Ok(npcsDict[key]) else Err(KeyError)
    }

    /**
     * `get_npc(idx)`: the idx-th NPC (1-based) of the current place, or None past the end. An idx of
     * 0 or below reaches `npcs[idx - 1]`, which Python reads from the end of the list.
     */
    function GetNpc(idx: int): (r: Result<Option<Npc>, Failure>)
      reads this
      ensures GetNpcs().Err? ==> r == Err(GetNpcs().error)
      ensures GetNpcs().Ok? && 1 <= idx <= |GetNpcs().value| ==> r == Ok(Some(GetNpcs().value[idx - 1]))
      ensures GetNpcs().Ok? && idx > |GetNpcs().value| ==> r == Ok(None)
      ensures GetNpcs().Ok? && idx <= 0 ==>
        var npcs := GetNpcs().value;
        if 1 - |npcs| <= idx then r == Ok(Some(npcs[|npcs| + idx - 1])) else r == Err(IndexError)
    {
      match PlaceKey()
      case Err(e) => Err(e)
      case Ok(key) =>
        if key !in npcsDict then Err(KeyError)
        else if idx <= |npcsDict[key]| then
          match PyIndex(npcsDict[key], idx - 1)
          case None => Err(IndexError)
          case Some(npc) => Ok(Some(npc))
        else Ok(None)
    }

    /**
     * `can_move(p)`: false for a negative coordinate; otherwise both coordinates are compared with the
     * number of rows, and the cell `board[x][y]` must not be "". Without a board, `len(None)` raises
     * TypeError; a row shorter than the board is tall makes `board[x][y]` raise IndexError.
     */
    function CanMove(p: Point): (r: Result<bool, Failure>)
      reads this`board
      ensures board.None? ==> (r.Ok? <==> p.x < 0 || p.y < 0) && (r.Err? ==> r.error == TypeError)
      ensures r == Ok(true) ==>
        board.Some? && 0 <= p.x < |board.value| && 0 <= p.y < |board.value[p.x]| && board.value[p.x][p.y] != ""
      ensures board.Some? && Square(board.value) ==>
        r.Ok? && (r.value <==> 0 <= p.x < |board.value| && 0 <= p.y < |board.value| && board.value[p.x][p.y] != "")
      ensures board.Some? && 0 <= p.x < |board.value| && 0 <= p.y < |board.value| && p.y >= |board.value[p.x]| ==>
        r == Err(IndexError)
    {
      if p.x < 0 || p.y < 0 then Ok(false)
      else if board.None? then Err(TypeError)
      else if p.x >= |board.value| || p.y >= |board.value| then Ok(false)
      else if p.y >= |board.value[p.x]| then Err(IndexError)
      else Ok(board.value[p.x][p.y] != "")
    }

    /** The location is a place: there is a board and `can_move` accepts the location's cell. */
    predicate AtPlace()
      reads this`board, this`location
    {
      board.Some? && location.Some? && CanMove(location.value) == Ok(true)
    }

    method SetCreating()
      modifies this
      ensures status == Creating && IsCreating() && !IsNotStarted() && !IsStarted()
      ensures board == old(board) && location == old(location) && placesDict == old(placesDict)
      ensures npcsDict == old(npcsDict) && towns == old(towns) && currentTown == old(currentTown)
    {
      status := Creating;
    }

    method SetStarted()
      modifies this
      ensures status == Started && IsStarted() && !IsNotStarted() && !IsCreating()
      ensures board == old(board) && location == old(location) && placesDict == old(placesDict)
      ensures npcsDict == old(npcsDict) && towns == old(towns) && currentTown == old(currentTown)
    {
      status := Started;
    }

    function IsNotStarted(): (b: bool)
      reads this
      ensures b <==> status == NotStarted
    {
      status == NotStarted
    }

    function IsCreating(): (b: bool)
      reads this
      ensures b <==> status == Creating
    {
      status == Creating
    }

    function IsStarted(): (b: bool)
      reads this
      ensures b <==> status == Started
    {
      status == Started
    }
  }

  /** Exactly one of `not_started`, `creating` and `started` holds. */
  lemma ExactlyOneStatus(w: World)
    ensures w.IsNotStarted() || w.IsCreating() || w.IsStarted()
    ensures !(w.IsNotStarted() && w.IsCreating()) && !(w.IsNotStarted() && w.IsStarted()) && !(w.IsCreating() && w.IsStarted())
  {
  }

  /** After `init_map` the location is on a place: the board is square and its centre holds "1:5". */
  lemma InitialBoardAtPlace(w: World)
    requires w.board == Some(InitialBoard()) && w.location == Some(Point(4, 4))
    ensures w.AtPlace()
    ensures w.PlaceKey() == Ok("1:5")
  {
    CentreIsOneFive();
  }

  /** On a label "t:p", the current town index is t - 1 and the town is entry t - 1 of the town list. */
  lemma CurrentTownOfLabel(w: World, t: nat, p: nat)
    requires w.PlaceKey() == Ok(LabelText(t, p)) && LabelText(t, p) in w.placesDict
    requires w.towns.Some? && 1 <= t <= |w.towns.value|
    ensures w.GetCurrentPlace() == Ok(CurrentPlace(t - 1, w.towns.value[t - 1], LabelText(t, p), w.placesDict[LabelText(t, p)]))
  {
    LabelTextParts(t, p);
  }

  /** Every place of the initial board belongs to one of the five towns: its town index is 0..4. */
  lemma InitialBoardTownIndex(w: World)
    requires w.board == Some(InitialBoard()) && w.AtPlace()
    requires w.PlaceKey().Ok? && w.PlaceKey().value in w.placesDict
    requires w.towns.Some? && |w.towns.value| == |Regions|
    ensures w.GetCurrentPlace().Ok? && 0 <= w.GetCurrentPlace().value.townIndex < |Regions|
  {
    var x, y := w.location.value.x, w.location.value.y;
    assert w.PlaceKey() == Ok(InitialBoard()[x][y]);
    BoardCellLabel(x, y);
    var i :| 0 <= i < |Regions| && InRegion(Regions[i], x, y) &&
      InitialBoard()[x][y] == LabelText(Regions[i].id, Counter(Regions[i], x, y));
    assert 1 <= Regions[i].id <= |Regions|;
    CurrentTownOfLabel(w, Regions[i].id, Counter(Regions[i], x, y));
  }
}
