/**
  * The sequential solver `TetrisPuzzleSolver`: a recursive backtracking
  * search that places the pieces of the bag in bag order, trying for each
  * piece every orientation of the shape table in turn and every anchor in
  * row-major order, pruning with the region test after each placement and
  * undoing every placement that does not lead to a solution.
  *
  * The ghost field `placed` is the list of placements the board shows; the
  * search is proved to answer exactly whether the rest of the bag can be
  * placed (when the piece area equals the board area, which `solve` checks
  * before searching).
  */
module Sequential {

  import opened Common
  import opened Shapes
  import opened Regions
  import opened Tiling
  import opened Board
  import opened Placing
  import opened Bags

  class TetrisPuzzleSolver {

    /** The rows x cols board: 0 empty, k the k-th placed piece. */
    const board: array2<int>
    /** The bag: the pieces to place, in order. */
    const blocks: seq<Kind>
    const nPieces: int
    /** The counts the solver was built from. */
    ghost const counts: Counts

    /** The number of pieces placed so far. */
    var blocksPtr: int
    /** The number of calls of the search, a performance counter. */
    var iterations: int
    var solved: bool
    var solveable: bool

    /** The placements the board shows, in the order they were made. */
    ghost var placed: seq<Placement>

    function Rows(): int { board.Length0 }
    function Cols(): int { board.Length1 }

    /** The board shows a legal list of placements of the bag. */
    ghost predicate Searchable()
      reads this, board
    {
      0 < Rows() && 0 < Cols() &&
      Valid(Rows(), Cols(), blocks, placed) && Shows(board, placed)
    }

    /**
      * The state between public calls: nothing is placed unless a solution
      * was found, in which case the board shows it, and only a solved
      * puzzle can be solveable.
      */
    ghost predicate Inv()
      reads this, board
    {
      Searchable() && nPieces == |blocks| && counts.NonNegative() && blocks == Bag(counts) &&
      blocksPtr == |placed| &&
      if solveable then solved && |placed| == |blocks| && 4 * |blocks| == Rows() * Cols() else placed == []
    }

    /** The search placed the whole bag, keeping the placements `ps` it started from. */
    ghost predicate Finished(ps: seq<Placement>)
      reads this
    {
      |placed| == |blocks| && |ps| <= |placed| && placed[..|ps|] == ps && blocksPtr == |blocks|
    }

    /**
      * The constructor for valid arguments: an all-zero height x width board
      * and the bag of the counts, nothing placed and nothing solved yet.
      */
    constructor (width: int, height: int, c: Counts)
      requires width > 0 && height > 0 && c.NonNegative()
      ensures Inv() && !solved && !solveable && iterations == 0
      ensures Rows() == height && Cols() == width && fresh(board)
      ensures forall i, j :: 0 <= i < height && 0 <= j < width ==> board[i, j] == 0
      ensures blocks == Bag(c) && nPieces == c.Total()
    {
      var b := NewBoard(height, width);
      var a := BuildBag(c);
      BagLength(c);
      board := b;
      blocks := a[..];
      counts := c;
      nPieces := c.Total();
      blocksPtr := 0;
      iterations := 0;
      solved := false;
      solveable := false;
      placed := [];
    }

    /**
      * `new TetrisPuzzleSolver(width, height, ...)`: refuses non-positive
      * dimensions and negative counts with IllegalArgumentException; when the
      * counts add up past `INT32_MAX` the 32-bit sum `nPieces` wraps around
      * and the bag array is either of negative size or too short for the
      * filling loops.
      */
    static method Create(width: int32, height: int32, c: Counts) returns (r: Result<TetrisPuzzleSolver>)
      ensures r.Ok? <==> width > 0 && height > 0 && c.NonNegative() && c.Total() <= INT32_MAX
      ensures r.Err? && (width <= 0 || height <= 0 || !c.NonNegative()) ==> r.error == InvalidConfig
      ensures r.Err? && width > 0 && height > 0 && c.NonNegative() ==> r.error == ArrayFailure
      ensures r.Ok? ==> fresh(r.value) && fresh(r.value.board) && r.value.Inv() && !r.value.solved
      ensures r.Ok? ==> r.value.Rows() == height && r.value.Cols() == width && r.value.blocks == Bag(c)
    {
      if width <= 0 || height <= 0 {
        return Err(InvalidConfig);
      }
      if c.i < 0 || c.o < 0 || c.t < 0 || c.j < 0 || c.l < 0 || c.s < 0 || c.z < 0 {
        return Err(InvalidConfig);
      }
      if c.Total() > INT32_MAX {
        return Err(ArrayFailure);
      }
      var solver := new TetrisPuzzleSolver(width, height, c);
      return Ok(solver);
    }

    /**
      * `solve`: searches once, only when the pieces cover exactly the board
      * area, and caches the verdict; a solveable puzzle leaves the solution on
      * the board, every cell labelled with a piece number.
      */
    method Solve() returns (r: bool)
      requires Inv()
      modifies this, board
      ensures Inv() && solved && r == solveable
      ensures old(solved) ==> r == old(solveable) && iterations == old(iterations) && placed == old(placed)
      ensures !old(solved) ==> (r <==> 4 * nPieces == Rows() * Cols() && Completable(Rows(), Cols(), blocks, []))
      ensures !old(solved) && 4 * nPieces != Rows() * Cols() ==> iterations == old(iterations)
      ensures r ==> forall i, j :: 0 <= i < Rows() && 0 <= j < Cols() ==> 1 <= board[i, j] <= nPieces
    {
      if !solved {
        if nPieces * 4 == board.Length0 * board.Length1 {
          solveable := S(1);
        } else {
          solveable := false;
        }
        solved := true;
      }
      r := solveable;
      if r {
        Coverage(Rows(), Cols(), blocks, placed);
      }
    }

    /**
      * `s(p)`: places piece `p` (the piece at `blocksPtr`) and the rest of the
      * bag.  It answers true only for a state that can be completed, then
      * leaving the whole solution on the board, and — when the piece area
      * equals the board area — for every such state.  On false the board,
      * `blocksPtr` and the placements are as they were on entry.
      */
    method S(p: int) returns (r: bool)
      requires Searchable() && blocksPtr == |placed| && p == blocksPtr + 1
      modifies this`blocksPtr, this`iterations, this`placed, board
      ensures Searchable() && iterations > old(iterations)
      ensures r ==> Completable(Rows(), Cols(), blocks, old(placed)) && Finished(old(placed))
      ensures 4 * |blocks| == Rows() * Cols() && Completable(Rows(), Cols(), blocks, old(placed)) ==> r
      ensures !r ==> placed == old(placed) && blocksPtr == old(blocksPtr)
      ensures !r ==> forall i, j :: 0 <= i < Rows() && 0 <= j < Cols() ==> board[i, j] == old(board[i, j])
      decreases |blocks| - |placed|, 5
    {
      iterations := iterations + 1;
      if blocksPtr >= |blocks| {
        FullIsCompletable(Rows(), Cols(), blocks, placed);
        assert placed[..|placed|] == placed;
        return true;
      }
      var kind := blocks[blocksPtr];
      blocksPtr := blocksPtr + 1;
      r := TryKind(p, kind);
      if !r {
        blocksPtr := blocksPtr - 1;
      }
    }

    /**
      * The body of `s` for a piece of kind `kind`: every orientation block of
      * the table in turn.  When none leads to a solution, no placement of the
      * piece does, so the state was not completable.
      */
    method TryKind(p: int, kind: Kind) returns (r: bool)
      requires Searchable() && |placed| < |blocks| && blocksPtr == |placed| + 1 && p == blocksPtr
      requires kind == blocks[|placed|]
      modifies this`blocksPtr, this`iterations, this`placed, board
      ensures Searchable() && iterations >= old(iterations)
      ensures r ==> Completable(Rows(), Cols(), blocks, old(placed)) && Finished(old(placed))
      ensures !r ==> placed == old(placed) && blocksPtr == old(blocksPtr)
      ensures !r && 4 * |blocks| == Rows() * Cols() ==> !Completable(Rows(), Cols(), blocks, old(placed))
      ensures !r ==> forall i, j :: 0 <= i < Rows() && 0 <= j < Cols() ==> board[i, j] == old(board[i, j])
      decreases |blocks| - |placed|, 4
    {
      ghost var ps := placed;
      var table := Orientations(kind);
      var rot := 0;
      while rot < |table|
        invariant 0 <= rot <= |table|
        invariant Searchable() && placed == ps && blocksPtr == |ps| + 1
        invariant iterations >= old(iterations)
        invariant 4 * |blocks| == Rows() * Cols() ==> NoneLeads(Rows(), Cols(), blocks, ps, kind, rot)
      {
        r := TryOrientation(p, kind, rot, table[rot]);
        if r {
          return;
        }
        if 4 * |blocks| == Rows() * Cols() {
          KindStep(Rows(), Cols(), blocks, ps, kind, rot);
        }
        rot := rot + 1;
      }
      r := false;
      NoneLeadsEnd(Rows(), Cols(), blocks, ps);
    }

    /** One orientation block of `s`: every anchor row in turn, top to bottom. */
    method TryOrientation(p: int, kind: Kind, rot: nat, o: Orientation) returns (r: bool)
      requires Searchable() && |placed| < |blocks| && blocksPtr == |placed| + 1 && p == blocksPtr
      requires kind == blocks[|placed|] && rot < |Orientations(kind)| && o == Orientations(kind)[rot]
      modifies this`blocksPtr, this`iterations, this`placed, board
      ensures Searchable() && iterations >= old(iterations)
      ensures r ==> Completable(Rows(), Cols(), blocks, old(placed)) && Finished(old(placed))
      ensures !r ==> placed == old(placed) && blocksPtr == old(blocksPtr)
      ensures !r && 4 * |blocks| == Rows() * Cols() ==>
        NoneLeadsInBlock(Rows(), Cols(), blocks, old(placed), kind, rot, Rows() - o.height + 1)
      decreases |blocks| - |placed|, 3
    {
      ghost var ps := placed;
      var y := 0;
      while y <= board.Length0 - o.height
        invariant 0 <= y
        invariant Searchable() && placed == ps && blocksPtr == |ps| + 1
        invariant iterations >= old(iterations)
        invariant 4 * |blocks| == Rows() * Cols() ==> NoneLeadsInBlock(Rows(), Cols(), blocks, ps, kind, rot, y)
      {
        r := TryRow(p, kind, rot, o, y);
        if r {
          return;
        }
        if 4 * |blocks| == Rows() * Cols() {
          BlockStep(Rows(), Cols(), blocks, ps, kind, rot, y);
        }
        y := y + 1;
      }
      r := false;
    }

    /** The inner loop of an orientation block: every anchor of row `y` in turn, left to right. */
    method TryRow(p: int, kind: Kind, rot: nat, o: Orientation, y: int) returns (r: bool)
      requires Searchable() && |placed| < |blocks| && blocksPtr == |placed| + 1 && p == blocksPtr
      requires kind == blocks[|placed|] && rot < |Orientations(kind)| && o == Orientations(kind)[rot]
      requires 0 <= y <= Rows() - o.height
      modifies this`blocksPtr, this`iterations, this`placed, board
      ensures Searchable() && iterations >= old(iterations)
      ensures r ==> Completable(Rows(), Cols(), blocks, old(placed)) && Finished(old(placed))
      ensures !r ==> placed == old(placed) && blocksPtr == old(blocksPtr)
      ensures !r && 4 * |blocks| == Rows() * Cols() ==>
        NoneLeadsInRow(Rows(), Cols(), blocks, old(placed), kind, rot, y, Cols() - o.width + 1)
      decreases |blocks| - |placed|, 2
    {
      ghost var ps := placed;
      var x := 0;
      while x <= board.Length1 - o.width
        invariant 0 <= x
        invariant Searchable() && placed == ps && blocksPtr == |ps| + 1
        invariant iterations >= old(iterations)
        invariant 4 * |blocks| == Rows() * Cols() ==> NoneLeadsInRow(Rows(), Cols(), blocks, ps, kind, rot, y, x)
      {
        r := Trial(p, kind, rot, o, y, x);
        if r {
          return;
        }
        if 4 * |blocks| == Rows() * Cols() {
          RowStep(Rows(), Cols(), blocks, ps, kind, rot, y, x);
        }
        x := x + 1;
      }
      r := false;
    }

    /**
      * One anchor of an orientation block: the fit test on the four target
      * cells, and on success the placement, search and undo of `Descend`.
      */
    method Trial(p: int, kind: Kind, rot: nat, o: Orientation, y: int, x: int) returns (r: bool)
      requires Searchable() && |placed| < |blocks| && blocksPtr == |placed| + 1 && p == blocksPtr
      requires kind == blocks[|placed|] && rot < |Orientations(kind)| && o == Orientations(kind)[rot]
      requires 0 <= y <= Rows() - o.height && 0 <= x <= Cols() - o.width
      modifies this`blocksPtr, this`iterations, this`placed, board
      ensures Searchable() && iterations >= old(iterations)
      ensures r ==> Completable(Rows(), Cols(), blocks, old(placed)) && Finished(old(placed))
      ensures !r ==> placed == old(placed) && blocksPtr == old(blocksPtr)
      ensures !r && 4 * |blocks| == Rows() * Cols() ==> !Leads(Rows(), Cols(), blocks, old(placed), At(kind, rot, y, x))
      decreases |blocks| - |placed|, 1
    {
      var pl := At(kind, rot, y, x);
      AtInBounds(Rows(), Cols(), kind, rot, y, x);
      VacantIffFree(board, placed, pl);
      if Vacant(board, Squares(pl)) {
        r := Descend(p, pl);
      } else {
        r := false;
      }
    }

    /**
      * A fitting anchor: write `p` into the four cells, then — unless the
      * region test finds the board hopeless — search for the rest; on
      * failure write 0 back.
      */
    method Descend(p: int, pl: Placement) returns (r: bool)
      requires Searchable() && blocksPtr == |placed| + 1 && p == blocksPtr
      requires Legal(Rows(), Cols(), blocks, placed, pl)
      modifies this`blocksPtr, this`iterations, this`placed, board
      ensures Searchable() && iterations >= old(iterations)
      ensures r ==> Completable(Rows(), Cols(), blocks, old(placed)) && Finished(old(placed))
      ensures !r ==> placed == old(placed) && blocksPtr == old(blocksPtr)
      ensures !r && 4 * |blocks| == Rows() * Cols() ==> !Completable(Rows(), Cols(), blocks, old(placed) + [pl])
      decreases |blocks| - |placed|, 0
    {
      ghost var ps := placed;
      ValidSnoc(Rows(), Cols(), blocks, ps, pl);
      LegalShaped(Rows(), Cols(), blocks, ps, pl);
      Place(board, ps, pl, p);
      placed := ps + [pl];
      r := Explore(p);
      if r {
        CompletableBack(Rows(), Cols(), blocks, ps, pl);
        assert placed[..|ps|] == placed[..|ps| + 1][..|ps|];
      } else {
        Unplace(board, ps, pl);
        placed := ps;
      }
    }

    /**
      * `!isStupidConfig() && s(p + 1)` once piece `p` is on the board: the
      * region test, then the search for the rest of the bag.
      */
    method Explore(p: int) returns (r: bool)
      requires Searchable() && blocksPtr == |placed| && p == blocksPtr
      modifies this`blocksPtr, this`iterations, this`placed, board
      ensures Searchable() && iterations >= old(iterations)
      ensures r ==> Completable(Rows(), Cols(), blocks, old(placed)) && Finished(old(placed))
      ensures 4 * |blocks| == Rows() * Cols() && Completable(Rows(), Cols(), blocks, old(placed)) ==> r
      ensures !r ==> placed == old(placed) && blocksPtr == old(blocksPtr)
      decreases |blocks| - |placed|, 6
    {
      ShownZeros(board, blocks, placed);
      var stupid := IsStupid(board, Free(Rows(), Cols(), placed));
      assert Shows(board, placed);
      if stupid {
        if 4 * |blocks| == Rows() * Cols() {
          PruneSound(Rows(), Cols(), blocks, placed);
        }
        r := false;
      } else {
        r := S(p + 1);
      }
    }

    /** `get?Blocks`: the number of pieces of kind `k`, the count the solver was built with. */
    method GetBlocks(k: Kind) returns (n: int)
      requires Inv()
      ensures n == counts.Of(k)
    {
      n := CountOf(blocks, k);
      BagCount(counts, k);
    }

    /** `getBoard`: a copy of the current board. */
    method GetBoard() returns (copy: array2<int>)
      ensures fresh(copy) && copy.Length0 == Rows() && copy.Length1 == Cols()
      ensures forall i, j :: 0 <= i < Rows() && 0 <= j < Cols() ==> copy[i, j] == board[i, j]
    {
      copy := CopyBoard(board);
    }
  }
}
