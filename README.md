# chatquest, verified model of the world and map core

ChatQuest is a chat text adventure. Its world is a grid of labelled places ("town:place"). A
procedural generator lays out towns of several places each, and every later town docks next to
an earlier one. The `World` object holds the board, the player's location, the places and the
NPCs (non-player characters) of each place, and a three-state status. The chat front end lists
the NPCs of a place and moves the player one step at a time. An image helper cleans the prompt
that a language model wrote, and chooses an image size.

This project models that core in Dafny and proves what it promises:

- `cells.dfy`, `random.dfy`: grid cells, adjacency, row-major order, and the random source.
  - The random source is an oracle: a stream of raw draws `rng: nat -> nat` read from a position.
  - `random.choice`, `random.randint` and `random.shuffle` follow CPython's call structure: the
    index of `choice` is `_randbelow(n)`, `randint(a, b)` is `a + _randbelow(b - a + 1)`, and
    `shuffle` is Fisher-Yates from the end.
  - Each `_randbelow(n)` is abstracted to one draw, taken modulo n. CPython draws random bits and
    may reject and redraw, which the model does not follow. Every property below holds for every
    sequence of draws.
- `shape.dfy` (`generate_contiguous_shape`) grows a 4-connected cluster cell by cell from a
  frontier. It then normalises the cluster and sorts it row-major.
- `mapgen.dfy` (`generate_map`):
  - a parent table;
  - a first-fit docking search with a budget of 200 attempts;
  - labelling;
  - grid assembly;
  - the start location.
- `world.py` becomes `world.dfy`:
  - the fixed 9x9 board of `init_map`;
  - the status machine;
  - `can_move`, `get_npc` and `init_npc_dict`;
  - the label parsing of `get_current_place`.

  Python's exceptions become a `Failure` result.
- `chatquest.dfy`: the numbered NPC listing, and the location and current-town update of a move.
- `imaging.dfy`: `clean_prompt` and the image sizes.
- `decimal.dfy`, `strings.dfy`, `wrappers.dfy`: decimal text of numbers, the "town:place" label
  text with its parse round trip, the text before and after a separator, and `Option`/`Result`.

The sparse map of the generator holds a `Label(town, place)` value. The text "town:place" is
produced when the grid is assembled. `LabelText` is proved injective and to parse back, so the
grid says the same as the map.

Python iterates sets and dicts in an order that is unspecified here:
- the frontier of a shape;
- the cells of a town;
- the entries of the sparse map;
- the keys of `places_dict`.

Those loops choose their next element nondeterministically, and everything proved holds for
every such order.

## Model

| member | source | states |
|---|---|---|
| Decimal.NatToString | mapgenerator.py:119 | the decimal text of a number is a non-empty string of digits, starting with '0' only for zero |
| Decimal.DigitsValueOfNatToString | mapgenerator.py:119 | reading the digits of a number's text gives the number back |
| Decimal.ParseNat | world.py:86 | `int()` of a label prefix succeeds exactly on a non-empty string of ASCII digits |
| Decimal.ParseNatToString | world.py:86 | parsing the decimal text of n yields n |
| Decimal.NatToStringInjective | mapgenerator.py:119 | different numbers have different decimal texts |
| Strings.Before | world.py:86 | `s.split(sep)[0]`: the longest prefix of s without sep, followed in s by sep whenever it is shorter than s |
| Strings.After | imaging.py:19 | when sep occurs, s is the text before it, then sep, then the result; without sep the result is empty |
| Strings.BeforeOfPrefix | world.py:86 | the first piece of `a + sep + b` is a when a holds no sep |
| Decimal.LabelText | mapgenerator.py:119 | a label "town:place" always contains ':' |
| Decimal.LabelTextParts | world.py:86 | the text before ':' in "t:p" is t's decimal text and parses to t; the text after it parses to p |
| Decimal.LabelTextInjective | mapgenerator.py:119 | two labels with the same text have the same town and place |
| Decimal.OneOneText | mapgenerator.py:123-124 | the label of town 1, place 1 is "1:1" |
| Cells.NeighborsAreAdjacent | mapgenerator.py:18-19 | the four neighbour offsets give exactly the 4-adjacent cells |
| Cells.StrictlyRowMajorDistinct | mapgenerator.py:30 | a strictly row-major list has no duplicates |
| Cells.ListCells | mapgenerator.py:79 | `list(set)` lists each cell of the set once and nothing else |
| Random.Below | mapgenerator.py:87 | the index drawn by `random.choice` on a list of length n lies in 0..n-1 |
| Random.RandInt | mapgenerator.py:68 | `random.randint(lo, hi)` lies in [lo, hi] |
| Random.Shuffle | mapgenerator.py:80 | `random.shuffle` returns a permutation of its input (same multiset) |
| Random.ShuffleDown | mapgenerator.py:90 | each swap step of the shuffle keeps the multiset of elements |
| Random.ShuffleSameElements | mapgenerator.py:80 | a shuffled list has the same length and the same elements as the original |
| ShapeGrower.Frontier | mapgenerator.py:16-21 | every candidate is outside the shape and adjacent to one of its cells, and every free neighbour of every shape cell is a candidate |
| ShapeGrower.LowestCell | mapgenerator.py:15-23 | a non-empty set of cells has a cell of greatest row |
| ShapeGrower.FrontierNotEmpty | mapgenerator.py:22-23 | a non-empty shape always has a free neighbour, so the `break` is unreachable |
| ShapeGrower.GrowStep | mapgenerator.py:24 | adding a cell adjacent to a cell already in the shape keeps the growth order 4-connected |
| ShapeGrower.MinRow | mapgenerator.py:27 | the minimum row is at most every row and is attained |
| ShapeGrower.MinCol | mapgenerator.py:28 | the minimum column is at most every column and is attained |
| ShapeGrower.Normalize | mapgenerator.py:27-29 | normalising keeps the count; all coordinates become non-negative, and row 0 and column 0 are both attained |
| ShapeGrower.NormalizeDistinct | mapgenerator.py:29 | normalising keeps distinct cells distinct |
| ShapeGrower.ShiftKeepsGrowth | mapgenerator.py:29 | moving every cell by one offset keeps a 4-connected growth order 4-connected |
| ShapeGrower.ShiftedGrowth | mapgenerator.py:27-29 | the growth order, moved by the normalising offset, is 4-connected and lists exactly the normalised cells |
| ShapeGrower.Insert | mapgenerator.py:30 | insertion adds exactly the one cell, and keeps a strictly row-major list strictly row-major |
| ShapeGrower.SortRowMajor | mapgenerator.py:30 | sorting is a permutation, strictly row-major when the input has no duplicates |
| ShapeGrower.SortedSameCells | mapgenerator.py:30 | sorting keeps the length and the set of cells |
| ShapeGrower.StrictlyRowMajorUnique | mapgenerator.py:30 | two strictly row-major lists of the same cells are equal, so the sorted shape does not depend on set order |
| ShapeGrower.SortedShapeFacts | mapgenerator.py:27-30 | the normalised, sorted shape has one cell per listed cell; it is strictly row-major and normalised, and its first cell is in row 0 |
| ShapeGrower.GenerateContiguousShape | mapgenerator.py:3-31 | the shape has num_cells distinct cells (1 when num_cells is 0); it is sorted row-major and normalised, and it was grown 4-connected |
| ShapeGrower.ShiftContiguous | mapgenerator.py:116-118 | moving every cell of a shape by one offset keeps it 4-connected and keeps its strict row-major order |
| MapGenerator.NewTownShaped | mapgenerator.py:116-121 | the town just placed is laid out as its shape moved by the offset: connected, places in row-major order |
| MapGenerator.OldTownShaped | mapgenerator.py:116-121 | adding another town's labels leaves an earlier town's layout unchanged |
| MapGenerator.ShapedStep | mapgenerator.py:114-125 | after placing a town every town, old and new, is laid out as a connected, row-major shape |
| MapGenerator.TwoPlaceTown | mapgenerator.py:16-30 | in a town of two places, place 2 is adjacent to place 1 and follows it in row-major order |
| MapGenerator.MovedIsShift | mapgenerator.py:137-138 | moving to the bounding-box corner moves every place by the same offset |
| MapGenerator.ShapedMoved | mapgenerator.py:137-138 | moving every place by one offset keeps every town laid out as a connected, row-major shape |
| MapGenerator.ShapedAfterMove | mapgenerator.py:127-138 | the grid coordinates keep every town laid out as a connected, row-major shape |
| MapGenerator.TownPlaced | mapgenerator.py:114-125 | placing a fitting town keeps the whole invariant and every town's layout, and leaves earlier cells as they were |
| MapGenerator.TextReadsBack | mapgenerator.py:119 | the grid text "town:place" of a label reads back both the town and the place number |
| MapGenerator.PlanParents | mapgenerator.py:60-63 | every town 2..n gets a parent in 1..t-1, and town 1 has none; one draw per town |
| MapGenerator.Ancestry | mapgenerator.py:60-63 | following parent links from any town stays within 1..t and reaches town 1 |
| MapGenerator.TownsConnected | mapgenerator.py:58-63 | from any town a chain of parents, each touching the next, leads to town 1 |
| MapGenerator.Candidate | mapgenerator.py:96 | the candidate offset is the one offset that puts the shape cell on the neighbour |
| MapGenerator.Collides | mapgenerator.py:98-104 | the conflict flag is set exactly when some shape cell at the offset is occupied |
| MapGenerator.ShuffledNeighbors | mapgenerator.py:89-90 | the shuffled neighbour list holds exactly the four cells adjacent to the parent cell |
| MapGenerator.TryNeighbors | mapgenerator.py:91-110 | first fit: an offset returned puts shape cell i on free neighbour n, fits, and every (free neighbour, shape cell) pair tried before (n, i) collides; none returned means every pair collides |
| MapGenerator.Attempt | mapgenerator.py:86-110 | the parent cell picked is the one the draw selects; an offset returned is the first fit over its shuffled neighbours and touches the parent town; none means no free neighbour of that cell takes any shape cell |
| MapGenerator.ExhaustedFromNeighbors | mapgenerator.py:91-110 | trying all four neighbours of a parent cell without a fit means the attempt from that cell failed |
| MapGenerator.Dock | mapgenerator.py:78-112 | at most 200 picks of parent cells; every pick but the last failed; None only after 200 failed picks; an offset is the first fit from the last pick, fits the free cells and touches the parent town |
| MapGenerator.PlaceTown | mapgenerator.py:114-125 | placing adds exactly the shifted shape cells, keeps every other cell, and labels the i-th cell "town:i+1"; "1:1" is recorded at town 1's first cell |
| MapGenerator.NewPlacesAt | mapgenerator.py:116-121 | the places of a new town are exactly 1..\|shape\|, place i on shape cell i-1 moved by the offset |
| MapGenerator.PlacedWereFree | mapgenerator.py:99-107 | a fitting placement lands only on cells no earlier town occupies |
| MapGenerator.ParentHasCells | mapgenerator.py:78-79 | an already placed parent town has at least one cell |
| MapGenerator.LabelledStep | mapgenerator.py:116-121 | after placing a town, the sparse map and the place-to-cell map are still inverse to each other, covering places 1..count of each town |
| MapGenerator.PlacedFound | mapgenerator.py:116-121 | after placing a town, every place is found on its cell |
| MapGenerator.PlacedNamed | mapgenerator.py:116-121 | after placing a town, every occupied cell names a place that leads back to it |
| MapGenerator.GroupedStep | mapgenerator.py:121-125 | `town_cells_global[t]` is exactly the set of cells labelled with town t |
| MapGenerator.DockedStep | mapgenerator.py:87-96 | a placed town touches its parent, and earlier towns keep touching theirs |
| MapGenerator.CountedStep | mapgenerator.py:68-69 | every counted town's place count lies in [min_places, max_places] |
| MapGenerator.PlaceStep | mapgenerator.py:114-125 | placing a town that fits keeps the whole invariant: counts, labelling, grouping and docking |
| MapGenerator.PlacedBefore | mapgenerator.py:114-125 | once towns 1..n are placed, every occupied cell belongs to one of them |
| MapGenerator.DockFailed | mapgenerator.py:111-112 | a search that used up its 200 attempts on the state built for towns 1..t-1 leaves a failure record: that state (counts, labels, grouping, docking), only towns 1..t-1 placed, a grown, normalised, row-major shape with a count in range, and 200 picked cells of the parent town from which no offset fits |
| MapGenerator.OneCellFitsAbove | mapgenerator.py:86-106 | a one-place shape fits on the free cell above any picked cell, so that cell is not exhausted |
| MapGenerator.SingleCellTownsDock | mapgenerator.py:65-112 | with two towns of one place each, the docking search for town 2 cannot fail |
| MapGenerator.ShapeAndOffset | mapgenerator.py:66-112 | the place count is in range and the shape has that many cells, grown 4-connected, sorted row-major and normalised with its first cell in row 0; a found offset is (0, 0) for town 1 and, for a later town, fits the free cells and touches the parent town; not found only for town >= 2, with a failure record holding the unchanged state |
| MapGenerator.AddTown | mapgenerator.py:114-125 | the new town's cells are exactly its shape moved by the offset, labelled "town:i+1" in shape order; every earlier cell keeps its label; the place map, counts and cell sets gain exactly the new town; the whole invariant holds for towns 1..town and every town is laid out as a grown, row-major shape; "1:1" is recorded in row 0 |
| MapGenerator.PlaceNextTown | mapgenerator.py:65-125 | one pass of the town loop: when placed, the new state is the old one plus exactly the new town, whose shape is grown, row-major and normalised, moved by an offset that is (0, 0) for town 1 or fits next to the parent; every town is laid out as its shape and the invariant holds for towns 1..town; when not placed, town >= 2 and the failure record holds the unchanged input state |
| MapGenerator.PlaceTowns | mapgenerator.py:65-125 | after the town loop, either all towns are placed with counts in range, every place labelled once, each town laid out as one 4-connected cluster whose places 1..count run in strict row-major order, towns touching their parents and "1:1" known; or the first town that failed to dock is reported with its failure record |
| MapGenerator.EmptyAtStart | mapgenerator.py:51-53 | before any town is placed the sparse map is empty |
| MapGenerator.Bounds | mapgenerator.py:128-131 | the bounds enclose every cell, and each bound is attained by some cell |
| MapGenerator.EmptyGrid | mapgenerator.py:136 | rows x cols entries, all "" |
| MapGenerator.Put | mapgenerator.py:138 | writing one entry changes that entry and no other |
| MapGenerator.ShiftedAt | mapgenerator.py:138 | cell (r, c) of the sparse map lands at (r - min_r, c - min_c) with its label |
| MapGenerator.ShiftedFrom | mapgenerator.py:138 | every grid position filled comes from an occupied cell |
| MapGenerator.FillStep | mapgenerator.py:137-138 | writing one more label keeps every written label in place and every other entry "" |
| MapGenerator.FilledOnAll | mapgenerator.py:137-138 | once all entries are written, the grid holds each label at its cell and "" elsewhere |
| MapGenerator.BlankGrid | mapgenerator.py:136 | the blank grid has nothing written |
| MapGenerator.FillCell | mapgenerator.py:138 | one write adds that cell to the written ones |
| MapGenerator.FillGrid | mapgenerator.py:136-138 | a rows x cols grid holds every label at its cell and "" elsewhere |
| MapGenerator.AssembleGrid | mapgenerator.py:127-138 | the grid is the bounding box: each label sits at (r - min_r, c - min_c), every other entry is "", and each side holds a label |
| MapGenerator.LabelAppearsOnce | mapgenerator.py:119-120 | a label occurs in the generated grid only at its own cell |
| MapGenerator.ShiftedLabelled | mapgenerator.py:137-138 | moving the sparse map to the origin keeps every place on its own cell |
| MapGenerator.LaidOutFromGrid | mapgenerator.py:135-138 | the assembled grid shows every place at its own cell and "" where there is no place |
| MapGenerator.TightFromGrid | mapgenerator.py:128-133 | each of the grid's four sides holds a place |
| MapGenerator.DockedRelative | mapgenerator.py:137-138 | moving all places by one offset keeps every town touching its parent |
| MapGenerator.StartFromFirst | mapgenerator.py:140-144 | the start location (col + 1, row + 1) of "1:1" indexes "1:1" in the grid |
| MapGenerator.Finish | mapgenerator.py:127-146 | every place is moved by the one offset that brings the bounding box's corner to (0, 0); the returned grid lays out every place once, is tight, keeps parent adjacency, and starts on "1:1" |
| MapGenerator.GenerateMap | mapgenerator.py:33-146 | NoTowns exactly when there are no towns; EmptyRange exactly when there are towns and min > max; one town with a non-empty range always succeeds, and so do two towns of one place each; PlacementFailed(t) only for a town 2..n whose 200 picked parent cells all failed against the state built for the towns placed before it; on success, counts in range, every place labelled once, bounding-box grid, each town one 4-connected cluster with places numbered in strict row-major order, towns touch their parents, start on "1:1" |
| WorldModel.PyIndex | world.py:81 | Python list indexing: defined for -len..len-1, negative indexes count from the end |
| WorldModel.Counter | world.py:64-68 | the running counter of a region cell is at least 1 |
| WorldModel.LayerLabelled | world.py:55-68 | a cell carries a label exactly when one of the regions written so far covers it |
| WorldModel.InitialBoard | world.py:53-68 | the board of `init_map` is 9x9 |
| WorldModel.WriteCell | world.py:67 | writing the next cell of a region extends the written part of that region by one |
| WorldModel.NextRow | world.py:65-66 | finishing a row of a region moves to the first column of the next row |
| WorldModel.RegionDone | world.py:63-68 | a region written to its end gives the board with that region's labels added |
| WorldModel.WriteRegion | world.py:63-68 | the nested loops write region i's labels over the board built so far |
| WorldModel.BuildBoard | world.py:53-68 | the loops of `init_map` build exactly the initial board |
| WorldModel.RegionsDisjoint | world.py:55-61 | the five regions do not overlap |
| WorldModel.LayerOfOwner | world.py:63-68 | a cell of region i carries region i's label, whatever regions are written after it |
| WorldModel.LayerOfNone | world.py:53 | a cell of no region stays "" |
| WorldModel.BoardRegionLabels | world.py:63-68 | "id:k" sits at row start + (k-1)/3, column start + (k-1)%3 of its 3x3 block |
| WorldModel.BoardOutsideEmpty | world.py:53 | cells outside the five blocks are "" |
| WorldModel.BoardCellLabel | world.py:53-68 | every non-"" board cell lies in a region and carries "id:counter" of it |
| WorldModel.CentreIsOneFive | world.py:70-73 | the centre (4, 4) holds "1:5" |
| WorldModel.World.constructor | world.py:39-50 | a new world has no board, location or towns, empty dicts, and status NotStarted: `not_started()` holds and `creating()`, `started()` do not |
| WorldModel.World.InitMap | world.py:52-74 | stores and returns the initial board and the centre Point(4, 4); nothing else changes |
| WorldModel.World.InitNpcDict | world.py:76-78 | every place key maps to an empty NPC list; other keys keep their lists |
| WorldModel.World.PlaceKey | world.py:80-81 | `map[x][y]` with AttributeError without a location, TypeError without a board, and Python indexing |
| WorldModel.World.GetCurrentPlace | world.py:83-88 | the place under the location, and the town index: the number before ':' minus 1, used to index the town list; KeyError for an unknown key |
| WorldModel.World.GetNpcs | world.py:90-91 | the NPC list of the place key, when there is one |
| WorldModel.World.GetNpc | world.py:93-98 | NPC idx (1-based) when 1 <= idx <= len, None past the end, counting from the end for idx <= 0, and the errors of `get_npcs` |
| WorldModel.World.CanMove | world.py:106-111 | false for negative coordinates or coordinates >= len(map); otherwise the cell is not ""; TypeError without a board; IndexError when the row at x is too short for y |
| WorldModel.World.SetCreating | world.py:113-126 | the status becomes Creating: `creating()` holds, `not_started()` and `started()` do not; nothing else changes |
| WorldModel.World.SetStarted | world.py:113-126 | the status becomes Started: `started()` holds, `not_started()` and `creating()` do not; nothing else changes |
| WorldModel.ExactlyOneStatus | world.py:119-126 | exactly one of `not_started`, `creating` and `started` holds |
| WorldModel.InitialBoardAtPlace | world.py:70-74 | after `init_map` the location is on a place, whose key is "1:5" |
| WorldModel.CurrentTownOfLabel | world.py:83-88 | on a place labelled "t:p", the current town index is t - 1 and the town is entry t - 1 of the list |
| WorldModel.InitialBoardTownIndex | world.py:83-88 | on the initial board every place belongs to one of the five towns (index 0..4) |
| ChatQuest.NpcLineReadsBack | chatquest.py:137 | one line: it ends in a newline, has no other newline when the NPC's texts have none, and the text before its first '.' parses to the number i |
| ChatQuest.Lines | chatquest.py:135-137 | line i of the listing is "i. description appearance\n" for the i-th NPC |
| ChatQuest.ConcatAppend | chatquest.py:137 | appending text piece by piece: concatenation distributes over joining lists of pieces |
| ChatQuest.NumberedLinesAppend | chatquest.py:135-137 | the listing of two lists one after the other is the two listings, numbering carried on |
| ChatQuest.NumberedLinesAt | chatquest.py:135-137 | NPC k's line, numbered k, sits between the lines of NPCs 1..k-1 and k+1..n |
| ChatQuest.GetNpcsText | chatquest.py:132-138 | the count is the number of NPCs, and the text is their numbered lines in list order; (0, "") for none |
| ChatQuest.ListingMatchesGetNpc | chatquest.py:132-138 | the NPC shown as number k in the listing is the one `get_npc(k)` returns |
| ChatQuest.Step | chatquest.py:286-293 | a step changes exactly one coordinate, by one |
| ChatQuest.StepOpposite | chatquest.py:286-293 | a step followed by a step the opposite way returns to the start |
| ChatQuest.StepInjective | chatquest.py:286-293 | the four directions lead to four different points |
| ChatQuest.Move | chatquest.py:278-302 | no change unless started; otherwise the location becomes the step iff `can_move` holds there, and errors before that leave the world unchanged; then the town of the current place becomes the current town, with "entered a new town" exactly when it differs from the previous one, and an error of `get_current_place` leaves the current town; the player stays on a place |
| Imaging.Split | imaging.py:13 | `split` gives at least one piece, none containing the separator, the first being the text before it |
| Imaging.JoinFirst | imaging.py:19 | `sep.join`: "" for no pieces; the text starts with the first piece; when that piece holds no sep, it is the text before the first sep, and sep occurs exactly when there are two pieces or more |
| Imaging.BeforeAfter | imaging.py:13 | a string is its first piece, the separator, and the rest |
| Imaging.JoinSplit | imaging.py:19 | joining the pieces of a split with the same separator gives the string back |
| Imaging.SplitOnePiece | imaging.py:15-16 | there is one piece exactly when the separator does not occur |
| Imaging.JoinTail | imaging.py:19 | `'\n'.join(lines[1:])` is the text after the first newline |
| Imaging.Lower | imaging.py:18 | `lower()` maps each character to its lower-case form, keeping the length |
| Imaging.Contains | imaging.py:18 | `sub in s` holds exactly when sub occurs at some position of s |
| Imaging.StripLeft | imaging.py:19 | removes exactly the leading whitespace |
| Imaging.StripRight | imaging.py:19 | removes exactly the trailing whitespace |
| Imaging.Strip | imaging.py:19 | the stripped text neither starts nor ends with whitespace |
| Imaging.StripSlice | imaging.py:19 | the stripped text is a slice of the input with only whitespace outside it |
| Imaging.StripIdempotent | imaging.py:19 | stripping twice is stripping once |
| Imaging.Unquote | imaging.py:22-23 | one wrapping pair of quotes is removed; unwrapped text is unchanged; a lone '"' becomes "" |
| Imaging.CleanPrompt | imaging.py:11-25 | a prompt without a newline is unchanged, and the cleaned prompt is always a contiguous piece of the input: cleaning only cuts text off the ends |
| Imaging.UnquoteSlice | imaging.py:22-23 | removing wrapping quotes leaves a contiguous piece of the text |
| Imaging.BodySlice | imaging.py:18-19 | the stripped text after the header line is a contiguous piece of the prompt |
| Imaging.CleanSingleLine | imaging.py:13-16 | a prompt without a newline comes back unchanged |
| Imaging.CleanDropsHeader | imaging.py:18-23 | with a first line mentioning "prompt" in any case, the result is the rest stripped, then unquoted |
| Imaging.CleanKeepsBody | imaging.py:18-25 | with a first line not mentioning "prompt", only wrapping quotes are removed |
| Imaging.CleanUnchanged | imaging.py:18-25 | a multi-line prompt without header line and without wrapping quotes is unchanged |
| Imaging.LargeImage | imaging.py:66-67 | the request carries the cleaned prompt and is always 512 x 512 |
| Imaging.DynamicImage | imaging.py:69-74 | the request carries the cleaned prompt; height 256; width 512 for one cell, else 256 per cell |
| Imaging.DynamicImageSquares | imaging.py:69-74 | for one cell or more, the image is max(cells, 2) squares wide and never narrower than the large image |

## Left out

- Real randomness and its uniformity. Draws are an arbitrary stream, so the properties hold for every outcome; none of them is probabilistic.
- The order in which Python iterates sets and dicts. Those loops pick their next element nondeterministically, so there is no statement that one stream determines one map.
- ShapeGrower.GenerateContiguousShape: the 4-connected growth order is a ghost output. The sorted shape is proved to hold exactly its cells.
- MapGenerator.GenerateMap: requires min_places >= 1. With min_places = 0, a draw of 0 records 0 places for a town that still gets the one cell "t:1", because `generate_contiguous_shape(0)` returns one cell. The place count then disagrees with the labels, and that case is not modelled.
- MapGenerator.GenerateMap: the RuntimeError for a missing "1:1" at mapgenerator.py:142-143 cannot happen. Town 1 is always placed first, and the model asserts this rather than returning an error.
- MapGenerator.GenerateMap: the sparse map holds a `Label` value in place of the string "town:place". The text is produced at grid assembly, through the proved-injective `Decimal.LabelText`.
- MapGenerator.Dock: the picked parent cells are stated to be cells of the parent town that all failed but the last. Which cell each draw selects is stated by `MapGenerator.Attempt` for one attempt, not by `Dock` over the whole search.
- MapGenerator.Dock: Python calls `random.choice` on a parent list that is never empty, because every placed town has at least one cell. The model requires that list to be non-empty.
- Decimal.ParseNat: Python's `int()` also accepts surrounding whitespace, a sign, underscores and non-ASCII digits. The model accepts only ASCII digits and returns ValueError otherwise.
- Imaging.Lower and Imaging.Strip: Python's `lower()` and `strip()` work on all of Unicode. The model covers ASCII letters and ASCII whitespace only.
- ChatQuest.Move: `move` receives the direction as a string. An unknown string leaves the new location None, and `can_move(None)` then raises. The model takes one of the four directions only.
- ChatQuest.Move: the closing call of `move` to `describe_scene` (chatquest.py:304) sends messages and images. It is not modelled; the model returns the "entered a new town" flag that `move` passes to it.
- The board field of `World` is called `board` (`map` is a Dafny keyword). The `description`, `towns_images` and `places_images_dict` fields are not modelled, and neither are `get_place_image` and `set_place_image`: they only store image bytes.
- Imaging: the HTTP request of `generate_image` and `log_prompt` are I/O. `Imaging.LargeImage` and `Imaging.DynamicImage` model only the prompt and size sent.
- The Telegram handlers, the database, the AI client wrappers and the prompt texts are I/O or constants.
- The `__main__` demo at the end of mapgenerator.py only prints.
