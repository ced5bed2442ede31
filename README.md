# Tetris puzzle solver — verified model

TetrisPuzzleSolver decides whether a bag of tetrominoes (so many I, O, T, J,
L, S and Z pieces) can exactly tile a `height x width` board, and if so
produces the tiling: every cell holds the number of the piece covering it
(1 for the first piece of the bag, 2 for the second, ...). It comes in two
solvers:

- `TetrisPuzzleSolver`, a recursive backtracking search. It places the
  pieces in bag order, trying every orientation of each shape and every
  anchor in row-major order. After each placement it prunes with the region
  test: it flood-fills the empty cells and gives up when some empty region's
  size is not a multiple of four. Every failed placement is undone.
- `TetrisPuzzleSolverMT`, the same search as a stack of work units
  (`BoardState`: a board plus the number `p` of the next piece). Expanding a
  unit tries every placement of piece `p`. On the last piece the first one
  that fits is the `Solution`. Otherwise each fitting placement that passes
  the region test becomes a deep-copied child unit, and the children are
  appended to the stack. The solver can also write its state to a binary
  checkpoint (`saveState`) and rebuild a solver from one (`loadState`).

The Dafny project models both solvers on `array2<int>` boards, one file per
concern:

- `common.dfy`: `Option`, `Result` and the error kinds (bad configuration, failed array allocation, corrupt checkpoint)
- `shapes.dfy`: the seven kinds, their characters, and the orientation table the copy-pasted blocks of `s` and `run` spell out (cell offsets plus bounding box)
- `regions.dfy`: the flood fill `group` as a function on sets of empty cells, proved to give the 4-connected component
- `tiling.dfy`: placements, legality, labels, "the rest of the bag can still be placed" (`Completable`), and soundness of the region test
- `board.dfy`: `group`, `clearGroups` and `isStupidConfig`/`isStupid` on the array, shared by both solvers
- `placing.dfy`: writing a piece into its four cells and undoing it; the fit test
- `bag.dfy`: building the bag, the `get?Blocks` counters, and the random-swap scramble
- `moves.dfy`: the candidate placements of one expansion, in the order the code tries them
- `codec.dfy`: the checkpoint byte layout as pure `Encode`/`Decode` functions over bytes
- `mt.dfy`: `BoardState`, `Solution` and `TetrisPuzzleSolverMT`: expansion, the LIFO queue driven by one worker, and the checkpoint methods proved against `codec.dfy`
- `sequential.dfy`: `TetrisPuzzleSolver`: constructor, the recursive search `s`, `solve`, `getBoard`, `get?Blocks`

The main results are:

- Both solvers answer exactly whether the bag tiles the board. `solve`
  returns true (MT: a non-null `Solution`) iff the piece area equals the
  board area and a legal placement of the whole bag exists. A returned board
  labels every cell with a piece number.
- The region test is proved sound: a board it rejects can never be
  completed.
- The checkpoint round-trips for every solver in the search invariant
  with at least one row, one column and one piece, and whose sizes, bag
  length and queue length fit a Java `int` (`SavedLoadable`, then
  `Reload`): `loadState(saveState(x) + anything)` rebuilds a solver that
  saves the same checkpoint again. A solver with an empty bag or a zero size (the
  constructor builds one when the areas differ) saves a checkpoint that
  `loadState` refuses (`Checkpoint.SavedRefused`).
- `loadState` refuses every malformed stream the code refuses.

The orientation table has 19 entries, as in the code: I 2, O 1, T 4, J 4,
L 4, S 2, Z 2. `Shapes.TurnClosed` proves the table closed under quarter
turns, so no rotation of any piece is missed.

## Model

Paths are relative to the repository root. `Seq` stands for
`TetrisPuzzleSolver/src/com/dosse/tetrisPuzzleSolver/TetrisPuzzleSolver.java`
and `MT` for `TetrisPuzzleSolver/src/com/dosse/tetrisPuzzleSolver/TetrisPuzzleSolverMT.java`
in the prose below; the table spells them out.

| member | source | states |
|---|---|---|
| `Shapes.Letter` | TetrisPuzzleSolver/src/com/dosse/tetrisPuzzleSolver/TetrisPuzzleSolver.java:18 | every kind is written as one of the seven piece characters i o t j l s z |
| `Shapes.KindOf` | TetrisPuzzleSolver/src/com/dosse/tetrisPuzzleSolver/TetrisPuzzleSolverMT.java:24 | a character names a kind iff it is one of the seven piece characters, and then it is that kind's character (inverse of `Letter`) |
| `Shapes.CatalogWellFormed` | TetrisPuzzleSolver/src/com/dosse/tetrisPuzzleSolver/TetrisPuzzleSolver.java:138-608 | every orientation the search tries is a tetromino: four distinct 4-connected cells filling its bounding box from row 0 and column 0; there are 2, 1, 4, 4, 4, 2 and 2 orientations of I, O, T, J, L, S and Z |
| `Shapes.TurnClosed` | TetrisPuzzleSolver/src/com/dosse/tetrisPuzzleSolver/TetrisPuzzleSolver.java:138-608 | a quarter turn of any tried orientation is again a tried orientation of the same kind, so no rotation of a piece is missed |
| `Shapes.EntriesDiffer` | TetrisPuzzleSolver/src/com/dosse/tetrisPuzzleSolver/TetrisPuzzleSolver.java:138-608 | no two tried orientations of a kind cover the same cells, so no placement is tried twice |
| `Regions.NeighbourAdjacent` | TetrisPuzzleSolver/src/com/dosse/tetrisPuzzleSolver/TetrisPuzzleSolver.java:87 | the four recursive calls of `group` visit exactly the 4-neighbours of the cell |
| `Regions.RegionWithin` | TetrisPuzzleSolver/src/com/dosse/tetrisPuzzleSolver/TetrisPuzzleSolver.java:84-90 | the flood fill visits only empty cells, and visits its start cell iff that cell is empty |
| `Regions.RegionClosed` | TetrisPuzzleSolver/src/com/dosse/tetrisPuzzleSolver/TetrisPuzzleSolver.java:84-90 | the flood fill never stops next to an empty cell it did not visit |
| `Regions.RegionLeast` | TetrisPuzzleSolver/src/com/dosse/tetrisPuzzleSolver/TetrisPuzzleSolver.java:84-90 | every closed set of empty cells holding the start holds the whole region: the region is exactly the 4-connected component of empty cells |
| `Regions.RegionAfterRemoval` | TetrisPuzzleSolver/src/com/dosse/tetrisPuzzleSolver/TetrisPuzzleSolver.java:102-115 | marking whole regions first does not change the region found from a cell outside them |
| `Regions.RegionOfMember` | TetrisPuzzleSolver/src/com/dosse/tetrisPuzzleSolver/TetrisPuzzleSolver.java:102-115 | every cell of a region has that same region |
| `Regions.RegionStep` | TetrisPuzzleSolver/src/com/dosse/tetrisPuzzleSolver/TetrisPuzzleSolver.java:85-87 | the region of an empty cell is that cell plus what the fills around it reach once it is marked, counted without overlap |
| `Regions.RegionParts` | TetrisPuzzleSolver/src/com/dosse/tetrisPuzzleSolver/TetrisPuzzleSolver.java:87 | the size of a region is 1 plus the sizes the four calls return, each on the cells the earlier calls left empty |
| `Tiling.LegalShaped` | TetrisPuzzleSolver/src/com/dosse/tetrisPuzzleSolver/TetrisPuzzleSolver.java:146-153 | a legal placement is a well-formed piece, inside the board, clear of every earlier piece |
| `Tiling.CoveredSize` | TetrisPuzzleSolver/src/com/dosse/tetrisPuzzleSolver/TetrisPuzzleSolver.java:150-153 | a placed piece covers exactly four cells |
| `Tiling.AnchorRange` | TetrisPuzzleSolver/src/com/dosse/tetrisPuzzleSolver/TetrisPuzzleSolver.java:146-147 | the anchor loop bounds are exactly the anchors at which the piece lies on the board |
| `Tiling.AllOrNothing` | TetrisPuzzleSolver/src/com/dosse/tetrisPuzzleSolver/TetrisPuzzleSolver.java:101-105 | a piece on empty cells lies wholly inside or wholly outside each closed part of the empty cells |
| `Tiling.AllCellsSize` | TetrisPuzzleSolver/src/com/dosse/tetrisPuzzleSolver/TetrisPuzzleSolver.java:626 | the board has rows x cols cells |
| `Tiling.PackedSize` | TetrisPuzzleSolver/src/com/dosse/tetrisPuzzleSolver/TetrisPuzzleSolver.java:626 | non-overlapping pieces cover four cells each |
| `Tiling.ValidSnoc` | TetrisPuzzleSolver/src/com/dosse/tetrisPuzzleSolver/TetrisPuzzleSolver.java:135-155 | a list of placements is legal iff its prefix is legal and its last placement is the next bag piece fitting after the prefix |
| `Tiling.ValidPrefix` | TetrisPuzzleSolver/src/com/dosse/tetrisPuzzleSolver/TetrisPuzzleSolver.java:135-155 | every prefix of a legal list is legal |
| `Tiling.ValidLast` | TetrisPuzzleSolver/src/com/dosse/tetrisPuzzleSolver/TetrisPuzzleSolver.java:135-155 | the last placement of a legal list was legal after the others |
| `Tiling.ValidPacked` | TetrisPuzzleSolver/src/com/dosse/tetrisPuzzleSolver/TetrisPuzzleSolver.java:146-153 | a legal list lies on the board and its pieces do not overlap |
| `Tiling.LabelZero` | TetrisPuzzleSolver/src/com/dosse/tetrisPuzzleSolver/TetrisPuzzleSolver.java:20 | a cell is labelled 0 iff no placed piece covers it |
| `Tiling.FreeAfter` | TetrisPuzzleSolver/src/com/dosse/tetrisPuzzleSolver/TetrisPuzzleSolver.java:148-153 | placing a piece that fits turns exactly its four cells from empty to occupied |
| `Tiling.FreeSize` | TetrisPuzzleSolver/src/com/dosse/tetrisPuzzleSolver/TetrisPuzzleSolver.java:626 | when the areas agree, a legal list leaves exactly four empty cells per piece still to place |
| `Tiling.FullIsCompletable` | TetrisPuzzleSolver/src/com/dosse/tetrisPuzzleSolver/TetrisPuzzleSolver.java:132-134 | a legal list that places the whole bag is a solution |
| `Tiling.FirstPiece` | TetrisPuzzleSolver/src/com/dosse/tetrisPuzzleSolver/TetrisPuzzleSolver.java:130-613 | a completable state with pieces left has a legal next placement that keeps it completable |
| `Tiling.CompletableBack` | TetrisPuzzleSolver/src/com/dosse/tetrisPuzzleSolver/TetrisPuzzleSolver.java:154-155 | a state from which one placement reaches a completable state is completable |
| `Tiling.ClosedPartSize` | TetrisPuzzleSolver/src/com/dosse/tetrisPuzzleSolver/TetrisPuzzleSolver.java:101 | a closed part of the cells covered by non-overlapping pieces has a multiple of four cells |
| `Tiling.PruneSound` | TetrisPuzzleSolver/src/com/dosse/tetrisPuzzleSolver/TetrisPuzzleSolver.java:102-115 | when the areas agree and some empty region's size is not a multiple of four, the state cannot be completed: pruning never loses a solution |
| `Tiling.Coverage` | TetrisPuzzleSolver/src/com/dosse/tetrisPuzzleSolver/TetrisPuzzleSolver.java:626-627 | when the areas agree, placing the whole bag covers every cell, and every cell gets a label of at least 1 |
| `Board.Group` | TetrisPuzzleSolver/src/com/dosse/tetrisPuzzleSolver/TetrisPuzzleSolver.java:84-90 | returns the size of the 4-connected empty region of (y, x) (0 when out of bounds or not empty); the empty cells left are the others; only empty cells change, each to the mark -1 |
| `Board.Spread` | TetrisPuzzleSolver/src/com/dosse/tetrisPuzzleSolver/TetrisPuzzleSolver.java:86-87 | after marking an empty cell, 1 plus the four calls is the size of its region, and exactly the region is marked |
| `Board.SpreadDown` | TetrisPuzzleSolver/src/com/dosse/tetrisPuzzleSolver/TetrisPuzzleSolver.java:87 | the last two calls count and mark the region below, then the region above among the cells left |
| `Board.NewBoard` | TetrisPuzzleSolver/src/com/dosse/tetrisPuzzleSolver/TetrisPuzzleSolver.java:45-50 | a fresh height x width board with every cell 0 |
| `Board.CopyBoard` | TetrisPuzzleSolver/src/com/dosse/tetrisPuzzleSolver/TetrisPuzzleSolverMT.java:62-65 | a fresh board of the same size holding the same labels |
| `Board.ClearGroups` | TetrisPuzzleSolver/src/com/dosse/tetrisPuzzleSolver/TetrisPuzzleSolver.java:92-100 | every -1 becomes 0 and every other cell keeps its value |
| `Board.IsStupid` | TetrisPuzzleSolver/src/com/dosse/tetrisPuzzleSolver/TetrisPuzzleSolver.java:102-115 | on an unmarked board, true iff some 4-connected empty region has a size that is not a multiple of four; the board is left exactly as it was |
| `Board.ScanRow` | TetrisPuzzleSolver/src/com/dosse/tetrisPuzzleSolver/TetrisPuzzleSolver.java:104-111 | one row of the scan: a bad region found is a real bad region; otherwise every empty cell up to this row lies in a good, marked region |
| `Board.GoodRegionsGrow` | TetrisPuzzleSolver/src/com/dosse/tetrisPuzzleSolver/TetrisPuzzleSolver.java:104-111 | adding one more region of a multiple-of-four size to the regions already scanned keeps them whole, closed and good |
| `Placing.AtInBounds` | TetrisPuzzleSolver/src/com/dosse/tetrisPuzzleSolver/TetrisPuzzleSolver.java:146-147 | a table entry anchored at (y, x) lies on the board iff the anchor is within the loop bounds of its block |
| `Placing.NextMove` | TetrisPuzzleSolver/src/com/dosse/tetrisPuzzleSolver/TetrisPuzzleSolver.java:135-613 | a completable state has a table entry and anchor within the loop bounds that leads to a completion |
| `Placing.RowStep` | TetrisPuzzleSolver/src/com/dosse/tetrisPuzzleSolver/TetrisPuzzleSolver.java:147 | one more failed anchor extends "no anchor of this row so far leads on" |
| `Placing.BlockStep` | TetrisPuzzleSolver/src/com/dosse/tetrisPuzzleSolver/TetrisPuzzleSolver.java:146 | one more failed row extends "no anchor of this orientation so far leads on" |
| `Placing.KindStep` | TetrisPuzzleSolver/src/com/dosse/tetrisPuzzleSolver/TetrisPuzzleSolver.java:137-612 | one more failed orientation extends "no orientation so far leads on" |
| `Placing.NoneLeadsEnd` | TetrisPuzzleSolver/src/com/dosse/tetrisPuzzleSolver/TetrisPuzzleSolver.java:609-613 | when every orientation and anchor has failed, the state is not completable, so `s` may answer false |
| `Placing.LabelSnoc` | TetrisPuzzleSolver/src/com/dosse/tetrisPuzzleSolver/TetrisPuzzleSolver.java:150-153 | after one more piece, its cells are labelled with its number and every other cell keeps its label |
| `Placing.ShownZeros` | TetrisPuzzleSolver/src/com/dosse/tetrisPuzzleSolver/TetrisPuzzleSolver.java:148 | on a board showing a legal list, the 0 cells are exactly the free cells and no cell is marked |
| `Placing.VacantIffFree` | TetrisPuzzleSolver/src/com/dosse/tetrisPuzzleSolver/TetrisPuzzleSolver.java:148 | the fit test (all four target cells 0) succeeds iff the piece overlaps no placed piece |
| `Placing.Paint` | TetrisPuzzleSolver/src/com/dosse/tetrisPuzzleSolver/TetrisPuzzleSolver.java:150-153 | the four given cells get the value and every other cell is unchanged |
| `Placing.Place` | TetrisPuzzleSolver/src/com/dosse/tetrisPuzzleSolver/TetrisPuzzleSolver.java:150-153 | writes `p` into exactly the four cells of the piece; the board then shows the list with the piece appended |
| `Placing.Unplace` | TetrisPuzzleSolver/src/com/dosse/tetrisPuzzleSolver/TetrisPuzzleSolver.java:157-161 | writing 0 back into the piece's cells restores the board that showed the list without it |
| `Bags.Repeat` | TetrisPuzzleSolver/src/com/dosse/tetrisPuzzleSolver/TetrisPuzzleSolver.java:53-55 | a run of `n` pieces, all of kind `k` |
| `Bags.BagOrdered` | TetrisPuzzleSolver/src/com/dosse/tetrisPuzzleSolver/TetrisPuzzleSolver.java:53-73 | the bag lists all I pieces, then O, T, J, L, S, Z |
| `Bags.BagCount` | TetrisPuzzleSolver/src/com/dosse/tetrisPuzzleSolver/TetrisPuzzleSolver.java:53-73 | the bag holds each kind exactly as often as its count |
| `Bags.BagLength` | TetrisPuzzleSolver/src/com/dosse/tetrisPuzzleSolver/TetrisPuzzleSolver.java:51-52 | the bag has as many pieces as the counts add up to |
| `Bags.FillRun` | TetrisPuzzleSolver/src/com/dosse/tetrisPuzzleSolver/TetrisPuzzleSolver.java:53-55 | one fill loop appends `n` pieces of the kind after position `ptr` and leaves the rest of the array alone |
| `Bags.BuildBag` | TetrisPuzzleSolver/src/com/dosse/tetrisPuzzleSolver/TetrisPuzzleSolver.java:51-74 | the seven fill loops build exactly the ordered bag |
| `Bags.CountOf` | TetrisPuzzleSolver/src/com/dosse/tetrisPuzzleSolver/TetrisPuzzleSolver.java:681-689 | the counter returns the number of pieces of the kind in the bag |
| `Bags.SwapPermutes` | TetrisPuzzleSolver/src/com/dosse/tetrisPuzzleSolver/TetrisPuzzleSolverMT.java:896-898 | a swap keeps the same pieces |
| `Bags.ScramblePermutes` | TetrisPuzzleSolver/src/com/dosse/tetrisPuzzleSolver/TetrisPuzzleSolverMT.java:894-899 | scrambling permutes the bag: every kind keeps its count |
| `Bags.Scramble` | TetrisPuzzleSolver/src/com/dosse/tetrisPuzzleSolver/TetrisPuzzleSolverMT.java:894-899 | the swap loop leaves the array holding the bag with the given swaps applied in order |
| `Moves.FittingMember` | TetrisPuzzleSolver/src/com/dosse/tetrisPuzzleSolver/TetrisPuzzleSolverMT.java:259 | a placement passes the fit filter iff it is a candidate clear of the placed pieces |
| `Moves.StagedMember` | TetrisPuzzleSolver/src/com/dosse/tetrisPuzzleSolver/TetrisPuzzleSolverMT.java:270-273 | a placement is staged iff it is a candidate, fits, and passes the region test |
| `Moves.RowCandsMember` | TetrisPuzzleSolver/src/com/dosse/tetrisPuzzleSolver/TetrisPuzzleSolverMT.java:258 | the anchors of a row are that row's anchors with the column below the bound |
| `Moves.BlockCandsMember` | TetrisPuzzleSolver/src/com/dosse/tetrisPuzzleSolver/TetrisPuzzleSolverMT.java:257-258 | the anchors of an orientation block are the anchors within both loop bounds |
| `Moves.KindCandsMember` | TetrisPuzzleSolver/src/com/dosse/tetrisPuzzleSolver/TetrisPuzzleSolverMT.java:250-309 | the candidates of the first table entries are the in-bounds placements of those entries |
| `Moves.CandidatesCount` | TetrisPuzzleSolver/src/com/dosse/tetrisPuzzleSolver/TetrisPuzzleSolverMT.java:250-830 | one expansion tries at most 4 x rows x cols placements |
| `Moves.CandidatesExact` | TetrisPuzzleSolver/src/com/dosse/tetrisPuzzleSolver/TetrisPuzzleSolverMT.java:250-830 | the placements one expansion tries are exactly the table placements of the piece's kind that lie on the board |
| `Moves.FittingLegal` | TetrisPuzzleSolver/src/com/dosse/tetrisPuzzleSolver/TetrisPuzzleSolverMT.java:259-264 | every candidate that fits is a legal next placement of the bag |
| `Moves.StagedLegal` | TetrisPuzzleSolver/src/com/dosse/tetrisPuzzleSolver/TetrisPuzzleSolverMT.java:270-273 | every staged child is a legal placement that the region test does not reject |
| `Moves.ExpansionComplete` | TetrisPuzzleSolver/src/com/dosse/tetrisPuzzleSolver/TetrisPuzzleSolverMT.java:250-830 | when the areas agree and a unit is completable, some candidate fits, is staged, and keeps it completable: expansion loses no solution |
| `Checkpoint.IntRoundTrip` | TetrisPuzzleSolver/src/com/dosse/tetrisPuzzleSolver/TetrisPuzzleSolverMT.java:1184-1186 | `readInt` reads back the Java `int` that `writeInt` wrote |
| `Checkpoint.IntCanonical` | TetrisPuzzleSolver/src/com/dosse/tetrisPuzzleSolver/TetrisPuzzleSolverMT.java:1283 | any four bytes are the written form of the `int` they read as |
| `Checkpoint.KindOfCode` | TetrisPuzzleSolver/src/com/dosse/tetrisPuzzleSolver/TetrisPuzzleSolverMT.java:1294-1297 | a char code is accepted iff it is the code of one of the seven piece characters, and then names that piece |
| `Checkpoint.ReadIntBytes` | TetrisPuzzleSolver/src/com/dosse/tetrisPuzzleSolver/TetrisPuzzleSolverMT.java:1322 | a written `int` reads back, leaving the bytes after it |
| `Checkpoint.ReadCharBytes` | TetrisPuzzleSolver/src/com/dosse/tetrisPuzzleSolver/TetrisPuzzleSolverMT.java:1294 | a written piece character reads back as the same piece |
| `Checkpoint.ReadRowBytes` | TetrisPuzzleSolver/src/com/dosse/tetrisPuzzleSolver/TetrisPuzzleSolverMT.java:1163-1165 | a written row of Java `int`s reads back |
| `Checkpoint.ReadGridBytes` | TetrisPuzzleSolver/src/com/dosse/tetrisPuzzleSolver/TetrisPuzzleSolverMT.java:1144-1167 | `deserializeBoard` reads back a rows x cols board `serializeBoard` wrote |
| `Checkpoint.ReadUnitBytes` | TetrisPuzzleSolver/src/com/dosse/tetrisPuzzleSolver/TetrisPuzzleSolverMT.java:1323-1327 | a written work unit (board, then piece number) reads back |
| `Checkpoint.ReadProgressBytes` | TetrisPuzzleSolver/src/com/dosse/tetrisPuzzleSolver/TetrisPuzzleSolverMT.java:1304-1331 | a written status (2, 1 with a board, 0 with the units) reads back |
| `Checkpoint.DecodeBody` | TetrisPuzzleSolver/src/com/dosse/tetrisPuzzleSolver/TetrisPuzzleSolverMT.java:1271-1341 | a checkpoint body is accepted iff the end magic follows it, and then reads back as what was written |
| `Checkpoint.DecodeEncode` | TetrisPuzzleSolver/src/com/dosse/tetrisPuzzleSolver/TetrisPuzzleSolverMT.java:1177-1249 | `loadState` reads back what `saveState` wrote, whatever follows it |
| `Checkpoint.SavedRefused` | TetrisPuzzleSolver/src/com/dosse/tetrisPuzzleSolver/TetrisPuzzleSolverMT.java:1284-1291 | a checkpoint of a board with fewer than one row or column, or of an empty bag, is refused |
| `Checkpoint.RowRead` | TetrisPuzzleSolver/src/com/dosse/tetrisPuzzleSolver/TetrisPuzzleSolverMT.java:1163-1165 | a row read has `cols` Java `int`s, and the bytes consumed are its written form |
| `Checkpoint.GridRead` | TetrisPuzzleSolver/src/com/dosse/tetrisPuzzleSolver/TetrisPuzzleSolverMT.java:1161-1167 | a board read is rows x cols, and the bytes consumed are its written form |
| `Checkpoint.UnitRead` | TetrisPuzzleSolver/src/com/dosse/tetrisPuzzleSolver/TetrisPuzzleSolverMT.java:1323-1327 | a unit read has a well-sized board, and the bytes consumed are its written form |
| `Checkpoint.ProgressRead` | TetrisPuzzleSolver/src/com/dosse/tetrisPuzzleSolver/TetrisPuzzleSolverMT.java:1304-1331 | a status read has well-sized boards, and the bytes consumed are its written form (except a non-positive unit count, which reads as no units) |
| `Checkpoint.UnitsRead` | TetrisPuzzleSolver/src/com/dosse/tetrisPuzzleSolver/TetrisPuzzleSolverMT.java:1322-1328 | `n` units read are `n` well-sized units, and the bytes consumed are their written form |
| `Checkpoint.HeaderRead` | TetrisPuzzleSolver/src/com/dosse/tetrisPuzzleSolver/TetrisPuzzleSolverMT.java:1275-1288 | the head of an accepted stream is the magic followed by the written form of the three `int`s it reads as |
| `Checkpoint.BagRead` | TetrisPuzzleSolver/src/com/dosse/tetrisPuzzleSolver/TetrisPuzzleSolverMT.java:1292-1298 | `n` pieces read are `n` pieces, and the bytes consumed are their written form |
| `Checkpoint.EncodeDecode` | TetrisPuzzleSolver/src/com/dosse/tetrisPuzzleSolver/TetrisPuzzleSolverMT.java:1271-1341 | every accepted stream holds a writable state whose checkpoint is a prefix of the stream (unless it is a running state with no units) |
| `Multithreaded.BoardState.constructor` | TetrisPuzzleSolver/src/com/dosse/tetrisPuzzleSolver/TetrisPuzzleSolverMT.java:43-53 | the first work unit: a fresh all-zero height x width board and `p = 1` |
| `Multithreaded.BoardState.Loaded` | TetrisPuzzleSolver/src/com/dosse/tetrisPuzzleSolver/TetrisPuzzleSolverMT.java:1324-1326 | a unit around a board read from a checkpoint, with the piece number read after it |
| `Multithreaded.BoardState.Copy` | TetrisPuzzleSolver/src/com/dosse/tetrisPuzzleSolver/TetrisPuzzleSolverMT.java:61-67 | a deep copy: a fresh board of the same size, equal cell by cell, and `p + 1` |
| `Multithreaded.BoardState.IsStupid` | TetrisPuzzleSolver/src/com/dosse/tetrisPuzzleSolver/TetrisPuzzleSolverMT.java:97-110 | true iff some empty region of the unit's board has a bad size; the board is unchanged |
| `Multithreaded.BoardState.Spawn` | TetrisPuzzleSolver/src/com/dosse/tetrisPuzzleSolver/TetrisPuzzleSolverMT.java:271-273 | no child iff the board is hopeless; else one fresh child showing the same placements, with `p + 1` |
| `Multithreaded.Solution.constructor` | TetrisPuzzleSolver/src/com/dosse/tetrisPuzzleSolver/TetrisPuzzleSolverMT.java:125-130 | a solution is a fresh copy of the unit's board |
| `Multithreaded.Solution.Wrap` | TetrisPuzzleSolver/src/com/dosse/tetrisPuzzleSolver/TetrisPuzzleSolverMT.java:138-140 | a solution around a loaded board, taken by reference |
| `Multithreaded.Solution.GetCopy` | TetrisPuzzleSolver/src/com/dosse/tetrisPuzzleSolver/TetrisPuzzleSolverMT.java:174-180 | `get()` returns a fresh copy of the solved board |
| `Multithreaded.TetrisPuzzleSolverMT.constructor` | TetrisPuzzleSolver/src/com/dosse/tetrisPuzzleSolver/TetrisPuzzleSolverMT.java:866-908 | the bag is the scrambled ordered bag, with every kind's count as given; the solver is finished with no result iff the areas differ; otherwise the queue is one empty unit with `p = 1` |
| `Multithreaded.TetrisPuzzleSolverMT.Create` | TetrisPuzzleSolver/src/com/dosse/tetrisPuzzleSolver/TetrisPuzzleSolverMT.java:866-908 | a solver is built iff the counts are non-negative with a Java `int` total and, when the areas agree, both sizes are positive; otherwise the array or the configuration error |
| `Multithreaded.TetrisPuzzleSolverMT.GetBlocks` | TetrisPuzzleSolver/src/com/dosse/tetrisPuzzleSolver/TetrisPuzzleSolverMT.java:1347-1355 | the counter returns the number of pieces of the kind in the bag |
| `Multithreaded.TetrisPuzzleSolverMT.Stage` | TetrisPuzzleSolver/src/com/dosse/tetrisPuzzleSolver/TetrisPuzzleSolverMT.java:261-281 | one fitting placement: the solution on the last piece, otherwise at most one child; the unit's board is restored unless a solution was found |
| `Multithreaded.TetrisPuzzleSolverMT.Finish` | TetrisPuzzleSolver/src/com/dosse/tetrisPuzzleSolver/TetrisPuzzleSolverMT.java:261-269 | on the last piece, the solution is a fresh board showing the unit's placements plus this one |
| `Multithreaded.TetrisPuzzleSolverMT.Branch` | TetrisPuzzleSolver/src/com/dosse/tetrisPuzzleSolver/TetrisPuzzleSolverMT.java:261-281 | on any other piece, the child (when the region test passes) shows the placement, and the unit's board is restored |
| `Multithreaded.TetrisPuzzleSolverMT.Attempt` | TetrisPuzzleSolver/src/com/dosse/tetrisPuzzleSolver/TetrisPuzzleSolverMT.java:259-282 | one anchor: a piece that does not fit does nothing, one that fits is staged |
| `Multithreaded.TetrisPuzzleSolverMT.ExpandRow` | TetrisPuzzleSolver/src/com/dosse/tetrisPuzzleSolver/TetrisPuzzleSolverMT.java:258-283 | the outcome of trying every anchor of the row, left to right |
| `Multithreaded.TetrisPuzzleSolverMT.ExpandOrientation` | TetrisPuzzleSolver/src/com/dosse/tetrisPuzzleSolver/TetrisPuzzleSolverMT.java:257-284 | the outcome of trying every anchor of the orientation, row by row |
| `Multithreaded.TetrisPuzzleSolverMT.Expand` | TetrisPuzzleSolver/src/com/dosse/tetrisPuzzleSolver/TetrisPuzzleSolverMT.java:243-830 | the outcome of trying every candidate of the unit's piece in table order: on the last piece the first fitting one is the solution; otherwise one fresh child per staged candidate, in order |
| `Multithreaded.TetrisPuzzleSolverMT.SolvedAnswers` | TetrisPuzzleSolver/src/com/dosse/tetrisPuzzleSolver/TetrisPuzzleSolverMT.java:265-267 | a solution an expansion yields shows a legal placement of the whole bag |
| `Multithreaded.TetrisPuzzleSolverMT.QueuedUnits` | TetrisPuzzleSolver/src/com/dosse/tetrisPuzzleSolver/TetrisPuzzleSolverMT.java:270-273 | the children are units of the puzzle with piece `p + 1` on separate boards, at most 4 x rows x cols of them, none on the last piece |
| `Multithreaded.TetrisPuzzleSolverMT.ExpansionLive` | TetrisPuzzleSolver/src/com/dosse/tetrisPuzzleSolver/TetrisPuzzleSolverMT.java:250-830 | when a completable unit is expanded without a solution, some child is still completable |
| `Multithreaded.TetrisPuzzleSolverMT.WeightDrops` | TetrisPuzzleSolver/src/com/dosse/tetrisPuzzleSolver/TetrisPuzzleSolverMT.java:831-835 | replacing a popped unit by its children one piece further on lowers the queue's weight, so the worker terminates |
| `Multithreaded.TetrisPuzzleSolverMT.Take` | TetrisPuzzleSolver/src/com/dosse/tetrisPuzzleSolver/TetrisPuzzleSolverMT.java:224-229 | pops the last unit (LIFO) and counts one iteration; if the puzzle is solvable, the popped unit or one left in the queue is still completable |
| `Multithreaded.TetrisPuzzleSolverMT.Keep` | TetrisPuzzleSolver/src/com/dosse/tetrisPuzzleSolver/TetrisPuzzleSolverMT.java:266-267 | records the solution found; the queue is unchanged |
| `Multithreaded.TetrisPuzzleSolverMT.Push` | TetrisPuzzleSolver/src/com/dosse/tetrisPuzzleSolver/TetrisPuzzleSolverMT.java:831-835 | appends all children at once after the enumeration, keeping the invariant, and lowers the weight |
| `Multithreaded.TetrisPuzzleSolverMT.Step` | TetrisPuzzleSolver/src/com/dosse/tetrisPuzzleSolver/TetrisPuzzleSolverMT.java:222-835 | one worker round: pop, expand, then record the solution or push the children; the older units stay in place and the weight drops |
| `Multithreaded.TetrisPuzzleSolverMT.Solve` | TetrisPuzzleSolver/src/com/dosse/tetrisPuzzleSolver/TetrisPuzzleSolverMT.java:961-1043 | a cached result is returned unchanged; otherwise the result is non-null iff the bag tiles the board, and a non-null result is a solved board |
| `Multithreaded.TetrisPuzzleSolverMT.SerializeRow` | TetrisPuzzleSolver/src/com/dosse/tetrisPuzzleSolver/TetrisPuzzleSolverMT.java:1146-1148 | the bytes of one row, left to right |
| `Multithreaded.TetrisPuzzleSolverMT.SerializeBoard` | TetrisPuzzleSolver/src/com/dosse/tetrisPuzzleSolver/TetrisPuzzleSolverMT.java:1144-1150 | the bytes of the board, row by row, with no size header |
| `Multithreaded.TetrisPuzzleSolverMT.DeserializeRow` | TetrisPuzzleSolver/src/com/dosse/tetrisPuzzleSolver/TetrisPuzzleSolverMT.java:1163-1165 | reads one row into the board, fails iff the stream is too short, and leaves every other row alone |
| `Multithreaded.TetrisPuzzleSolverMT.DeserializeBoard` | TetrisPuzzleSolver/src/com/dosse/tetrisPuzzleSolver/TetrisPuzzleSolverMT.java:1161-1167 | fills the board with what the stream reads as, row by row; fails iff the stream is too short |
| `Multithreaded.TetrisPuzzleSolverMT.WriteBag` | TetrisPuzzleSolver/src/com/dosse/tetrisPuzzleSolver/TetrisPuzzleSolverMT.java:1187-1189 | one Java `char` per piece, in bag order |
| `Multithreaded.TetrisPuzzleSolverMT.WriteUnits` | TetrisPuzzleSolver/src/com/dosse/tetrisPuzzleSolver/TetrisPuzzleSolverMT.java:1239-1242 | each unit's board then its piece number, oldest first |
| `Multithreaded.TetrisPuzzleSolverMT.Saved` | TetrisPuzzleSolver/src/com/dosse/tetrisPuzzleSolver/TetrisPuzzleSolverMT.java:1208-1243 | the recorded state, in the corrected order: rows, cols and bag as they are; a worker's solution is always recorded; "impossible" iff a finished solve has no result or an unfinished one has neither a solution nor queued units; "running" iff there are queued units and no solution |
| `Multithreaded.TetrisPuzzleSolverMT.SavedAsWritten` | TetrisPuzzleSolver/src/com/dosse/tetrisPuzzleSolver/TetrisPuzzleSolverMT.java:1208-1243 | the state in the order the code tests it: an unfinished solve with an empty queue is recorded as impossible even when a worker holds a solution; in every other state it agrees with `Saved` |
| `Multithreaded.TetrisPuzzleSolverMT.WriteProgress` | TetrisPuzzleSolver/src/com/dosse/tetrisPuzzleSolver/TetrisPuzzleSolverMT.java:1208-1243 | the status byte and what follows it, for the state the solver is in, in the corrected order of the Findings row (a worker's solution is tested before the empty queue) |
| `Multithreaded.TetrisPuzzleSolverMT.SaveState` | TetrisPuzzleSolver/src/com/dosse/tetrisPuzzleSolver/TetrisPuzzleSolverMT.java:1177-1249 | the bytes written are the checkpoint of the solver's state: magic, rows, cols, bag, status, magic; the status is chosen in the corrected order of the Findings row (a worker's solution is tested before the empty queue) |
| `Multithreaded.TetrisPuzzleSolverMT.ReadBlocks` | TetrisPuzzleSolver/src/com/dosse/tetrisPuzzleSolver/TetrisPuzzleSolverMT.java:1292-1298 | reads `n` piece characters, failing on a short stream or a character that names no piece |
| `Multithreaded.TetrisPuzzleSolverMT.ReadSaved` | TetrisPuzzleSolver/src/com/dosse/tetrisPuzzleSolver/TetrisPuzzleSolverMT.java:1324-1326 | one unit: a fresh board read from the stream and the piece number after it; fails iff the stream is too short |
| `Multithreaded.TetrisPuzzleSolverMT.ReadQueue` | TetrisPuzzleSolver/src/com/dosse/tetrisPuzzleSolver/TetrisPuzzleSolverMT.java:1322-1328 | reads `n` units in order onto fresh, separate boards; fails iff the stream is too short |
| `Multithreaded.TetrisPuzzleSolverMT.ReadStatus` | TetrisPuzzleSolver/src/com/dosse/tetrisPuzzleSolver/TetrisPuzzleSolverMT.java:1304-1331 | a status byte not 0, 1 or 2 fails; 2 is finished without a result, 1 finished with the board read, 0 running with the units read |
| `Multithreaded.TetrisPuzzleSolverMT.Restored` | TetrisPuzzleSolver/src/com/dosse/tetrisPuzzleSolver/TetrisPuzzleSolverMT.java:1300-1321 | a solver with the rows, cols, bag, status and units read, no worker solution and no iterations |
| `Multithreaded.TetrisPuzzleSolverMT.LoadState` | TetrisPuzzleSolver/src/com/dosse/tetrisPuzzleSolver/TetrisPuzzleSolverMT.java:1271-1342 | succeeds iff the stream is a valid checkpoint, and then restores exactly its contents on fresh boards; otherwise fails with a corrupt-checkpoint error |
| `Multithreaded.TetrisPuzzleSolverMT.RestoresSaved` | TetrisPuzzleSolver/src/com/dosse/tetrisPuzzleSolver/TetrisPuzzleSolverMT.java:1208-1243 | a loaded solver saves what it was loaded from, except that a running checkpoint with no units saves as impossible |
| `Multithreaded.TetrisPuzzleSolverMT.ShownGrid` | TetrisPuzzleSolver/src/com/dosse/tetrisPuzzleSolver/TetrisPuzzleSolverMT.java:1144-1150 | a board shown by the search is a board of Java `int`s of the right size, so it can be written |
| `Multithreaded.TetrisPuzzleSolverMT.SavedLoadable` | TetrisPuzzleSolver/src/com/dosse/tetrisPuzzleSolver/TetrisPuzzleSolverMT.java:1177-1249 | a solver in its invariant, with a non-empty bag and sizes that fit Java `int`s, saves a checkpoint `loadState` accepts |
| `Multithreaded.TetrisPuzzleSolverMT.SaveReadable` | TetrisPuzzleSolver/src/com/dosse/tetrisPuzzleSolver/TetrisPuzzleSolverMT.java:1177-1249 | the checkpoint of a loadable state decodes back to that state |
| `Multithreaded.TetrisPuzzleSolverMT.LoadSaved` | TetrisPuzzleSolver/src/com/dosse/tetrisPuzzleSolver/TetrisPuzzleSolverMT.java:1271-1342 | loading a checkpoint of a state gives a solver that saves that same state |
| `Multithreaded.TetrisPuzzleSolverMT.Reload` | TetrisPuzzleSolver/src/com/dosse/tetrisPuzzleSolver/TetrisPuzzleSolverMT.java:1177-1342 | `loadState(saveState())` succeeds and gives a solver whose checkpoint equals the original's: rows, cols, bag, result and queue (board and `p`, in order) |
| `Multithreaded.TetrisPuzzleSolverMT.SaveLosesSolution` | TetrisPuzzleSolver/src/com/dosse/tetrisPuzzleSolver/TetrisPuzzleSolverMT.java:1218-1236 | with a worker solution and an empty queue, the code as written saves "impossible" for a solvable puzzle, while the corrected order saves the solution |
| `Multithreaded.LostSolution` | TetrisPuzzleSolver/src/com/dosse/tetrisPuzzleSolver/TetrisPuzzleSolverMT.java:1218-1236 | a concrete run (one O piece on a 2 x 2 board, after one worker step) reaches that state |
| `Multithreaded.SolvedInOneStep` | TetrisPuzzleSolver/src/com/dosse/tetrisPuzzleSolver/TetrisPuzzleSolverMT.java:310-338 | one worker step on that solver finds a solution and leaves the queue empty |
| `Multithreaded.OneSquare` | TetrisPuzzleSolver/src/com/dosse/tetrisPuzzleSolver/TetrisPuzzleSolverMT.java:310-338 | one O piece tiles a 2 x 2 board |
| `Multithreaded.OneO` | TetrisPuzzleSolver/src/com/dosse/tetrisPuzzleSolver/TetrisPuzzleSolverMT.java:900-907 | the solver for one O on a 2 x 2 board starts with one unit with `p = 1` |
| `Multithreaded.Start` | TetrisPuzzleSolver/src/com/dosse/tetrisPuzzleSolver/TetrisPuzzleSolverMT.java:900-907 | when the areas agree, a new solver is unsolved with one fresh empty unit and the given counts |
| `Sequential.TetrisPuzzleSolver.constructor` | TetrisPuzzleSolver/src/com/dosse/tetrisPuzzleSolver/TetrisPuzzleSolver.java:38-75 | an all-zero height x width board, the ordered bag of the counts, `blocksPtr` back at 0, not yet solved |
| `Sequential.TetrisPuzzleSolver.Create` | TetrisPuzzleSolver/src/com/dosse/tetrisPuzzleSolver/TetrisPuzzleSolver.java:38-75 | built iff both sizes are positive, no count is negative and the total fits a Java `int`; non-positive sizes or a negative count give the configuration error, an oversized total the array error |
| `Sequential.TetrisPuzzleSolver.Solve` | TetrisPuzzleSolver/src/com/dosse/tetrisPuzzleSolver/TetrisPuzzleSolver.java:624-630 | the first call answers iff the areas agree and the bag tiles the board, without searching when the areas differ; later calls return the cached answer; on success every cell holds a piece number 1..nPieces |
| `Sequential.TetrisPuzzleSolver.S` | TetrisPuzzleSolver/src/com/dosse/tetrisPuzzleSolver/TetrisPuzzleSolver.java:130-615 | true only if the state is completable, and then the board shows the whole bag; true whenever the areas agree and the state is completable; on false the board and `blocksPtr` are as on entry |
| `Sequential.TetrisPuzzleSolver.TryKind` | TetrisPuzzleSolver/src/com/dosse/tetrisPuzzleSolver/TetrisPuzzleSolver.java:137-613 | trying every orientation of the piece: true only with a completion; false (the areas agreeing) means the state is not completable, with the board restored |
| `Sequential.TetrisPuzzleSolver.TryOrientation` | TetrisPuzzleSolver/src/com/dosse/tetrisPuzzleSolver/TetrisPuzzleSolver.java:146-163 | trying every anchor row of one orientation: false means no anchor of it leads to a completion |
| `Sequential.TetrisPuzzleSolver.TryRow` | TetrisPuzzleSolver/src/com/dosse/tetrisPuzzleSolver/TetrisPuzzleSolver.java:147-162 | trying every anchor of one row: false means no anchor of the row leads to a completion |
| `Sequential.TetrisPuzzleSolver.Trial` | TetrisPuzzleSolver/src/com/dosse/tetrisPuzzleSolver/TetrisPuzzleSolver.java:148-161 | one anchor: the fit test, then place, prune, recurse and undo; false means this placement leads nowhere |
| `Sequential.TetrisPuzzleSolver.Descend` | TetrisPuzzleSolver/src/com/dosse/tetrisPuzzleSolver/TetrisPuzzleSolver.java:150-161 | a legal placement is written, explored and undone on failure; false means the state after it is not completable |
| `Sequential.TetrisPuzzleSolver.Explore` | TetrisPuzzleSolver/src/com/dosse/tetrisPuzzleSolver/TetrisPuzzleSolver.java:154 | prune with the region test, then recurse: true only with a completion, and, when the piece area equals the board area, true whenever the state is completable |
| `Sequential.TetrisPuzzleSolver.GetBlocks` | TetrisPuzzleSolver/src/com/dosse/tetrisPuzzleSolver/TetrisPuzzleSolver.java:681-773 | each `get?Blocks` returns the count the solver was built with |
| `Sequential.TetrisPuzzleSolver.GetBoard` | TetrisPuzzleSolver/src/com/dosse/tetrisPuzzleSolver/TetrisPuzzleSolver.java:636-642 | a fresh copy of the current board |

## Left out

- Threads: the slave threads, priorities and names, `sleep` polling,
  `synchronized` blocks, and the `paused`, `masterPaused`, `slavePaused`,
  `stopASAP` and `waiting` handshakes. `cancel` is left out too. The MT
  search is one sequential worker that pops, expands and pushes until a
  solution appears or the queue is empty. This is the master's "all waiting
  and queue empty" verdict without the concurrency.
- `saveState`'s pause-wait loops, `saveLock`, the `paused = false` reset,
  and the catch-and-rewrap of exceptions. A checkpoint is one byte sequence;
  short reads and I/O errors are a failed read.
- `Math.random()` in the scramble. The swap index pairs are a parameter
  (`swaps`), each required to lie in the bag.
- 32-bit arithmetic of `nPieces * 4`, `width * height` and the group
  count. These are unbounded integers in the model, so a board or bag whose
  area overflows a Java `int` is not modelled. The `iterations` counter is
  a Java `long` in both solvers; it is unbounded here, and its 64-bit wrap
  is not modelled.
- `Multithreaded.TetrisPuzzleSolverMT.Create`: reports the array error for
  every negative count and every total beyond a Java `int`. Java still
  builds a bag in exotic cases where the wrapped total equals the sum of
  the positive counts (for example two counts of -2^31 and four T).
- `Sequential.TetrisPuzzleSolver.S`: states that `iterations` grows, not
  that it grows by exactly one per call.
- Out-of-memory on large boards, the `StackOverflowError` that the
  recursion of `group` (`TetrisPuzzleSolver.java:84-90`,
  `TetrisPuzzleSolverMT.java:69-75`) and of `s`
  (`TetrisPuzzleSolver.java:130-615`) throws on large boards or bags (the
  model has unbounded recursion depth), and the Java exception types.
  Errors are the `Error` kinds of `common.dfy`.
- `__status`, `__board`, `getIterations`, `getNCores`,
  `getNumberOfPieces`, `getWidth`, `getHeight` and `isSolved`. These are
  plain field reads (`nPieces`, `w`, `h`, `solved`, the board sizes) or GUI
  and thread bookkeeping. `Solution.getRows`/`getColumns`/`get(row, col)`
  are the functions `Rows`, `Columns` and `Get`.
- Solving a loaded solver. `Solve` and `Step` require the search
  invariant. `loadState` does not guarantee it, because it reads piece
  numbers and boards unvalidated. A checkpoint with a bad `p` makes the
  Java worker fail with an array index error, which is not modelled.
- The placement history of loaded units. A loaded unit's ghost list of
  placements is empty; it carries only its board and `p`.
- `loadState`'s first dummy solver (`new TetrisPuzzleSolverMT(1, 1, 1, ...)`).
  `Restored` builds the loaded state directly.
- Long `group`/`isStupid` and search loops are split into helper methods
  and lemmas: `Spread`/`SpreadDown`, `ScanRow`, `Expand*`, `Try*`. Each
  helper corresponds to one loop or call of the code.
- `gui/Visualizer.java` is not part of this model.

## Findings

| source | as written | input that shows it | evidently intended | confidence | as-written member | corrected member |
|---|---|---|---|---|---|---|
| TetrisPuzzleSolver/src/com/dosse/tetrisPuzzleSolver/TetrisPuzzleSolverMT.java:1218-1236 | `saveState` on an unsolved solver tests `queue.isEmpty()` before looking for a worker's solution, and writes status 2 (impossible) when the queue is empty | one O piece on a 2 x 2 board: the first worker step pops the only unit, finds the solution and leaves the queue empty; a save before the master notices records "impossible" | record the worker's solution (status 1 and its board) whenever one exists | not executed | `Multithreaded.TetrisPuzzleSolverMT.SavedAsWritten`, `Multithreaded.LostSolution`, `Multithreaded.TetrisPuzzleSolverMT.SaveLosesSolution` | `Multithreaded.TetrisPuzzleSolverMT.Saved`, used by `SaveState`; `Multithreaded.TetrisPuzzleSolverMT.Reload` proves the round trip |
