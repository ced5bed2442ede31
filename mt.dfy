/**
  * The multithreaded solver `TetrisPuzzleSolverMT`, with its slave threads
  * reduced to one sequential worker.  The search state is a LIFO queue of
  * work units (`BoardState`): a board with the first `p - 1` pieces of the
  * bag placed.  A worker pops the last unit and expands it: for the next
  * piece it tries every candidate placement in table order; on the last
  * piece the first one that fits is the solution, otherwise every fitting
  * placement that passes the region test becomes a fresh child unit, and
  * the children are appended to the queue.
  *
  * The ghost field `placed` of a unit is the list of placements its board
  * shows.  The search is proved to answer exactly whether the bag can cover
  * the board, and to terminate: each step lowers a weight that counts every
  * unit as a power of the branching bound.
  */
module Multithreaded {

  import opened Common
  import opened Shapes
  import opened Regions
  import opened Tiling
  import opened Board
  import opened Placing
  import opened Bags
  import opened Moves
  import opened Checkpoint

  /**
    * A work unit: a board and the number `p` of the next piece to place
    * (counted from 1).  Java assigns `p` once, right after construction;
    * here it is a constructor argument.
    */
  class BoardState {

    const board: array2<int>
    const p: int
    /** The placements the board shows between trials. */
    ghost const placed: seq<Placement>

    /**
      * The first work unit: an all-zero height x width board and piece 1.
      * Java refuses non-positive dimensions here; the solver's `Create`
      * returns that error before it gets this far.
      */
    constructor (width: int, height: int)
      requires width > 0 && height > 0
      ensures fresh(board) && board.Length0 == height && board.Length1 == width
      ensures forall i, j :: 0 <= i < height && 0 <= j < width ==> board[i, j] == 0
      ensures p == 1 && placed == []
    {
      var b := NewBoard(height, width);
      board := b;
      p := 1;
      placed := [];
    }

    /**
      * A unit read back from a checkpoint: the board `b` its cells were read
      * into and the piece number read after them.  Java builds the unit
      * around an all-zero board and assigns `p` once the cells are read.
      */
    constructor Loaded(b: array2<int>, next: int)
      ensures board == b && p == next && placed == []
    {
      board := b;
      p := next;
      placed := [];
    }

    /**
      * A child unit: a deep copy of the board, one piece further on.  It
      * shows `shown` when the parent's board does.
      */
    constructor Copy(s: BoardState, ghost shown: seq<Placement>)
      ensures fresh(board) && board.Length0 == s.board.Length0 && board.Length1 == s.board.Length1
      ensures forall i, j :: 0 <= i < board.Length0 && 0 <= j < board.Length1 ==> board[i, j] == s.board[i, j]
      ensures p == s.p + 1 && placed == shown
      ensures Shows(s.board, shown) ==> Shows(board, placed)
    {
      var b := CopyBoard(s.board);
      board := b;
      p := s.p + 1;
      placed := shown;
    }

    /**
      * `isStupid`: the region test on the unit's board, which shows `shown`;
      * it answers whether some region of empty cells has a size that is not
      * a multiple of four, and leaves the board as it was.
      */
    method IsStupid(ghost bag: seq<Kind>, ghost shown: seq<Placement>) returns (r: bool)
      requires Shows(board, shown) && Valid(board.Length0, board.Length1, bag, shown)
      modifies board
      ensures r == HasBadRegion(Free(board.Length0, board.Length1, shown))
      ensures forall i, j :: 0 <= i < board.Length0 && 0 <= j < board.Length1 ==> board[i, j] == old(board[i, j])
    {
      ShownZeros(board, bag, shown);
      r := Board.IsStupid(board, Free(board.Length0, board.Length1, shown));
    }

    /**
      * What a worker does with a board holding one more piece, when that is
      * not the last: unless the region test finds it hopeless, a copy of it,
      * one piece further on, becomes the single new unit.
      */
    method Spawn(ghost bag: seq<Kind>, ghost shown: seq<Placement>) returns (kids: seq<BoardState>)
      requires Shows(board, shown) && Valid(board.Length0, board.Length1, bag, shown)
      modifies board
      ensures Shows(board, shown)
      ensures kids == [] <==> HasBadRegion(Free(board.Length0, board.Length1, shown))
      ensures |kids| <= 1
      ensures forall c :: c in kids ==>
        fresh(c.board) && c.p == p + 1 && c.placed == shown &&
        c.board.Length0 == board.Length0 && c.board.Length1 == board.Length1 && Shows(c.board, c.placed)
    {
      var stupid := IsStupid(bag, shown);
      kids := [];
      if !stupid {
        var child := new BoardState.Copy(this, shown);
        kids := [child];
      }
    }
  }

  /** A solved board. */
  class Solution {

    const board: array2<int>
    /** The placements the board shows, when the search produced it. */
    ghost const shown: seq<Placement>

    /** A copy of a work unit's board, which shows `ps`. */
    constructor (s: BoardState, ghost ps: seq<Placement>)
      ensures fresh(board) && board.Length0 == s.board.Length0 && board.Length1 == s.board.Length1
      ensures forall i, j :: 0 <= i < board.Length0 && 0 <= j < board.Length1 ==> board[i, j] == s.board[i, j]
      ensures shown == ps
      ensures Shows(s.board, ps) ==> Shows(board, shown)
    {
      var b := CopyBoard(s.board);
      board := b;
      shown := ps;
    }

    /** A solution around a loaded board, taken by reference. */
    constructor Wrap(b: array2<int>)
      ensures board == b && shown == []
    {
      board := b;
      shown := [];
    }

    function Rows(): int { board.Length0 }
    function Columns(): int { board.Length1 }

    /** `get(row, col)`: one cell of the solved board. */
    function Get(row: int, col: int): int
      reads board
      requires 0 <= row < Rows() && 0 <= col < Columns()
    {
      board[row, col]
    }

    /** `get()`: a copy of the solved board. */
    method GetCopy() returns (copy: array2<int>)
      ensures fresh(copy) && copy.Length0 == Rows() && copy.Length1 == Columns()
      ensures forall i, j :: 0 <= i < Rows() && 0 <= j < Columns() ==> copy[i, j] == board[i, j]
    {
      copy := CopyBoard(board);
    }
  }

  lemma AreaPositive(a: int, b: int)
    requires 0 < a && 0 < b
    ensures 0 < a * b
  {
  }

  /** The boards of a list of work units. */
  function Boards(q: seq<BoardState>): set<array2<int>>
  {
    set u | u in q :: u.board
  }

  /** No two work units share a board. */
  predicate Apart(q: seq<BoardState>)
  {
    forall i, j :: 0 <= i < j < |q| ==> q[i].board != q[j].board
  }

  /** The units of `a` and of `b` have no board in common. */
  predicate Disjoint(a: seq<BoardState>, b: seq<BoardState>)
  {
    forall i, j :: 0 <= i < |a| && 0 <= j < |b| ==> a[i].board != b[j].board
  }

  /**
    * How the expansion of a work unit ends: with a solution (the last piece
    * fitted) or with the new units it queues, possibly none.
    */
  datatype Outcome = Solved(sol: Solution) | Queued(kids: seq<BoardState>)

  /** The boards an outcome holds. */
  function Held(out: Outcome): set<array2<int>>
  {
    match out
    case Solved(sol) => {sol.board}
    case Queued(kids) => Boards(kids)
  }

  /** The board of a solution shows its placements; the board of every new unit shows its own. */
  ghost predicate Drawn(out: Outcome)
    reads Held(out)
  {
    match out
    case Solved(sol) => Shows(sol.board, sol.shown)
    case Queued(kids) => forall c :: c in kids ==> Shows(c.board, c.placed)
  }

  /** `b` to the power `e` (1 for a non-positive `e`). */
  ghost function Pow(b: nat, e: int): (r: nat)
    ensures b >= 1 ==> r >= 1
  {
    if e <= 0 then 1 else b * Pow(b, e - 1)
  }

  /** The termination weight of a queue: each unit with piece `p` counts `B` to the power `N + 1 - p`. */
  ghost function Weight(q: seq<BoardState>, B: nat, N: int): nat
  {
    if q == [] then 0 else Weight(q[..|q| - 1], B, N) + Pow(B, N + 1 - q[|q| - 1].p)
  }

  lemma {:induction false} WeightConcat(a: seq<BoardState>, b: seq<BoardState>, B: nat, N: int)
    ensures Weight(a + b, B, N) == Weight(a, B, N) + Weight(b, B, N)
    decreases |b|
  {
    if b == [] {
      assert a + b == a;
    } else {
      assert (a + b)[..|a + b| - 1] == a + b[..|b| - 1];
      WeightConcat(a, b[..|b| - 1], B, N);
    }
  }

  /** Units that all hold piece `p` weigh their number times one unit's weight. */
  lemma {:induction false} WeightSame(q: seq<BoardState>, B: nat, N: int, p: int)
    requires forall i :: 0 <= i < |q| ==> q[i].p == p
    ensures Weight(q, B, N) == |q| * Pow(B, N + 1 - p)
    decreases |q|
  {
    if q != [] {
      WeightSame(q[..|q| - 1], B, N, p);
    }
  }

  lemma {:induction false} MulStrict(m: nat, B: nat, x: nat)
    requires m < B && 1 <= x
    ensures m * x < B * x
    decreases x
  {
    if x > 1 {
      MulStrict(m, B, x - 1);
      assert m * x == m * (x - 1) + m;
      assert B * x == B * (x - 1) + B;
    }
  }

  /** Fewer than `B` units one level down weigh less than one unit. */
  lemma FewerThanOne(m: nat, B: nat, e: int)
    requires m < B && e >= 1
    ensures m * Pow(B, e - 1) < Pow(B, e)
  {
    MulStrict(m, B, Pow(B, e - 1));
  }

  /** The cells of row `y` of a board, left to right. */
  function RowOf(a: array2<int>, y: int): (r: seq<int>)
    requires 0 <= y < a.Length0
    reads a
    ensures |r| == a.Length1 && forall x :: 0 <= x < a.Length1 ==> r[x] == a[y, x]
  {
    seq(a.Length1, x requires 0 <= x < a.Length1 reads a => a[y, x])
  }

  /** The cells of a board, row by row. */
  function Grid(a: array2<int>): (g: seq<seq<int>>)
    reads a
    ensures |g| == a.Length0 && forall y :: 0 <= y < a.Length0 ==> g[y] == RowOf(a, y)
  {
    seq(a.Length0, y requires 0 <= y < a.Length0 reads a => RowOf(a, y))
  }

  /** The work units of `q` as a checkpoint saves them, first to last: board and piece number. */
  function Units(q: seq<BoardState>): (us: seq<SavedUnit>)
    reads Boards(q)
    ensures |us| == |q| && forall i :: 0 <= i < |q| ==> us[i] == SavedUnit(Grid(q[i].board), q[i].p)
  {
    if q == [] then []
    else
      assert forall u :: u in q[..|q| - 1] ==> u in q;
      Units(q[..|q| - 1]) + [SavedUnit(Grid(q[|q| - 1].board), q[|q| - 1].p)]
  }

  class TetrisPuzzleSolverMT {

    /** Columns and rows of the board. */
    const w: int
    const h: int
    /** The bag, scrambled. */
    const blocks: seq<Kind>
    /** The work units, used as a stack: the last one is taken first. */
    var queue: seq<BoardState>
    /** The number of work units processed, a performance counter. */
    var iterations: int
    var solved: bool
    /** The result of `solve`, null when the puzzle has no solution. */
    var cachedResult: Solution?
    /** The solution the worker found, if any (a slave thread's `solution`). */
    var solution: Solution?

    /** A work unit of this puzzle: an h x w board showing a legal list of the first `p - 1` pieces. */
    ghost predicate UnitOk(u: BoardState)
      reads u.board
    {
      u.board.Length0 == h && u.board.Length1 == w && 1 <= u.p <= |blocks| && |u.placed| == u.p - 1 &&
      forall n {:trigger UnitKey(u, n)} :: UnitKey(u, n) ==> Valid(h, w, blocks, u.placed) && Shows(u.board, u.placed)
    }

    /**
      * Always true.  `UnitOk` guards its statement about the placement
      * history with it, so that the verifier opens that statement only where
      * a proof names `UnitKey` (the same idiom as `Opened` below).
      */
    predicate UnitKey(u: BoardState, n: int)
    {
      true
    }

    /** A solved board of this puzzle: it shows a legal list that places the whole bag. */
    ghost predicate Answer(sol: Solution)
      reads sol.board
    {
      sol.board.Length0 == h && sol.board.Length1 == w && |sol.shown| == |blocks| &&
      Valid(h, w, blocks, sol.shown) && Shows(sol.board, sol.shown)
    }

    /** Some unit of `q` can still be completed. */
    ghost predicate Live(q: seq<BoardState>)
    {
      exists i :: 0 <= i < |q| && Completable(h, w, blocks, q[i].placed)
    }

    /**
      * The solver state: every queued unit is a unit of this puzzle with a
      * board of its own, every solution on record solves the puzzle, a
      * finished solve recorded a solution exactly when one exists, and an
      * unfinished one (the areas agree) loses no solution: if the puzzle can
      * be solved, the worker holds a solution or some queued unit can still
      * be completed.
      */
    ghost predicate Inv()
      reads this, Boards(queue)
      reads if cachedResult == null then {} else {cachedResult.board}
      reads if solution == null then {} else {solution.board}
    {
      (forall u :: u in queue ==> UnitOk(u)) && Apart(queue) &&
      (solution != null ==> Answer(solution)) &&
      (cachedResult != null ==> Answer(cachedResult)) &&
      (solved ==> (cachedResult != null <==> 4 * |blocks| == h * w && Completable(h, w, blocks, []))) &&
      (!solved ==>
        0 < h && 0 < w && 4 * |blocks| == h * w && cachedResult == null &&
        (Completable(h, w, blocks, []) ==> solution != null || Live(queue)))
    }

    /**
      * `new TetrisPuzzleSolverMT(width, height, ...)` for arguments it
      * accepts: the bag of the counts, scrambled by the swaps `swaps` (Java
      * draws them with `Math.random`); a puzzle whose piece area differs
      * from the board area is solved at once, without a solution, and any
      * other starts with one empty work unit.
      */
    constructor (width: int, height: int, c: Counts, swaps: seq<(int, int)>)
      requires c.NonNegative() && |swaps| == c.Total() && InRange(swaps, c.Total())
      requires 4 * c.Total() == width * height ==> width > 0 && height > 0
      ensures Inv() && iterations == 0 && solution == null && cachedResult == null
      ensures w == width && h == height && blocks == Scrambled(Bag(c), swaps)
      ensures forall k :: multiset(blocks)[k] == c.Of(k)
      ensures solved <==> 4 * c.Total() != width * height
      ensures solved ==> queue == []
      ensures !solved ==> |queue| == 1 && fresh(queue[0].board) && queue[0].p == 1 && queue[0].placed == []
    {
      var a := BuildBag(c);
      BagLength(c);
      Scramble(a, swaps);
      w := width;
      h := height;
      blocks := a[..];
      iterations := 0;
      solution := null;
      cachedResult := null;
      new;
      forall k
        ensures multiset(blocks)[k] == c.Of(k)
      {
        ScramblePermutes(Bag(c), swaps);
        BagCount(c, k);
      }
      if c.Total() * 4 != width * height {
        solved := true;
        queue := [];
      } else {
        solved := false;
        var s := new BoardState(width, height);
        queue := [s];
        AreaPositive(width, height);
        assert Valid(h, w, blocks, []) && Shows(s.board, []);
        assert UnitOk(s);
        assert Completable(h, w, blocks, []) ==> Live(queue) by {
          assert queue[0].placed == [];
        }
      }
    }

    /**
      * The constructor with its failures: a count below zero or counts that
      * add up past `INT32_MAX` make the bag array of negative size or too
      * short for the filling loops, and matching areas with a non-positive
      * dimension make the first work unit refuse its board.
      */
    static method Create(width: int32, height: int32, c: Counts, swaps: seq<(int, int)>) returns (r: Result<TetrisPuzzleSolverMT>)
      requires c.NonNegative() && c.Total() <= INT32_MAX ==> |swaps| == c.Total() && InRange(swaps, c.Total())
      ensures r.Ok? <==>
        c.NonNegative() && c.Total() <= INT32_MAX && (4 * c.Total() == width * height ==> width > 0 && height > 0)
      ensures r.Err? && !(c.NonNegative() && c.Total() <= INT32_MAX) ==> r.error == ArrayFailure
      ensures r.Err? && c.NonNegative() && c.Total() <= INT32_MAX ==> r.error == InvalidConfig
      ensures r.Ok? ==> fresh(r.value) && r.value.Inv() && r.value.iterations == 0
      ensures r.Ok? ==> r.value.w == width && r.value.h == height && r.value.blocks == Scrambled(Bag(c), swaps)
      ensures r.Ok? ==> (r.value.solved <==> 4 * c.Total() != width * height)
    {
      if c.i < 0 || c.o < 0 || c.t < 0 || c.j < 0 || c.l < 0 || c.s < 0 || c.z < 0 || c.Total() > INT32_MAX {
        return Err(ArrayFailure);
      }
      if c.Total() * 4 == width * height && (width <= 0 || height <= 0) {
        return Err(InvalidConfig);
      }
      var solver := new TetrisPuzzleSolverMT(width, height, c, swaps);
      return Ok(solver);
    }

    /** `get?Blocks`: the number of pieces of kind `k` in the bag. */
    method GetBlocks(k: Kind) returns (n: int)
      ensures n == multiset(blocks)[k]
    {
      n := CountOf(blocks, k);
    }

    /** `kids` are units with piece `p`, boards of their own, each meant to show `ps` plus the matching entry of `pls`. */
    ghost predicate Kids(kids: seq<BoardState>, p: int, ps: seq<Placement>, pls: seq<Placement>)
    {
      |kids| == |pls| && Apart(kids) &&
      forall i :: 0 <= i < |kids| ==>
        kids[i].p == p && kids[i].placed == ps + [pls[i]] && kids[i].board.Length0 == h && kids[i].board.Length1 == w
    }

    /**
      * The outcome of trying the candidates `cs`, in order, on a unit with
      * piece `p` whose board shows `ps`.  On the last piece the first
      * candidate that fits is the solution, and nothing fits when the
      * outcome queues nothing; on any other piece there is no solution and
      * one new unit per staged candidate, in order.
      */
    ghost predicate Tried(p: int, ps: seq<Placement>, cs: seq<Placement>, out: Outcome)
    {
      match out
      case Solved(sol) =>
        forall n {:trigger Opened(p, ps, cs, out, n)} :: Opened(p, ps, cs, out, n) ==>
          p == |blocks| && Fitting(ps, cs) != [] &&
          sol.board.Length0 == h && sol.board.Length1 == w && sol.shown == ps + [Fitting(ps, cs)[0]]
      case Queued(kids) =>
        forall n {:trigger Opened(p, ps, cs, out, n)} :: Opened(p, ps, cs, out, n) ==>
          if p == |blocks| then kids == [] && Fitting(ps, cs) == []
          else exists ss {:trigger Kids(kids, p + 1, ps, ss)} :: ss == Staged(h, w, ps, cs) && Kids(kids, p + 1, ps, ss)
    }

    /**
      * Always true.  The statement of `Tried` is guarded by it so that the
      * verifier opens that statement only where a proof names `Opened`.
      */
    predicate Opened(p: int, ps: seq<Placement>, cs: seq<Placement>, out: Outcome, n: int)
    {
      true
    }

    /** Trying no candidates queues nothing. */
    lemma TriedNone(p: int, ps: seq<Placement>)
      ensures Tried(p, ps, [], Queued([]))
    {
      assert Opened(p, ps, [], Queued([]), 0);
      assert Kids([], p + 1, ps, Staged(h, w, ps, []));
    }

    /** Units standing for two lists of placements, with boards apart, stand for their concatenation. */
    lemma KidsConcat(p: int, ps: seq<Placement>, ka: seq<BoardState>, kb: seq<BoardState>, sa: seq<Placement>, sb: seq<Placement>)
      requires Kids(ka, p, ps, sa) && Kids(kb, p, ps, sb) && Disjoint(ka, kb)
      ensures Kids(ka + kb, p, ps, sa + sb)
    {
      var kids := ka + kb;
      forall i | 0 <= i < |kids|
        ensures kids[i].p == p && kids[i].placed == ps + [(sa + sb)[i]]
        ensures kids[i].board.Length0 == h && kids[i].board.Length1 == w
      {
        if i < |ka| {
          assert kids[i] == ka[i] && (sa + sb)[i] == sa[i];
        } else {
          assert kids[i] == kb[i - |ka|] && (sa + sb)[i] == sb[i - |ka|];
        }
      }
      forall i, j | 0 <= i < j < |kids|
        ensures kids[i].board != kids[j].board
      {
        if j < |ka| {
          assert kids[i] == ka[i] && kids[j] == ka[j];
        } else if i >= |ka| {
          assert kids[i] == kb[i - |ka|] && kids[j] == kb[j - |ka|];
        } else {
          assert kids[i] == ka[i] && kids[j] == kb[j - |ka|];
        }
      }
    }

    /** Trying two lists of candidates, neither solving, one after the other tries their concatenation. */
    lemma TriedConcat(p: int, ps: seq<Placement>, a: seq<Placement>, b: seq<Placement>,
                      ka: seq<BoardState>, kb: seq<BoardState>)
      requires Tried(p, ps, a, Queued(ka)) && Tried(p, ps, b, Queued(kb))
      requires Disjoint(ka, kb)
      ensures Tried(p, ps, a + b, Queued(ka + kb))
    {
      assert Opened(p, ps, a, Queued(ka), 0) && Opened(p, ps, b, Queued(kb), 0);
      assert Opened(p, ps, a + b, Queued(ka + kb), 0);
      if p == |blocks| {
        FittingConcat(ps, a, b);
      } else {
        StagedConcat(h, w, ps, a, b);
        KidsConcat(p + 1, ps, ka, kb, Staged(h, w, ps, a), Staged(h, w, ps, b));
      }
    }

    /** A solution found after candidates that found none is the first for the concatenation. */
    lemma TriedSolvedAfter(p: int, ps: seq<Placement>, a: seq<Placement>, b: seq<Placement>, ka: seq<BoardState>, sol: Solution)
      requires Tried(p, ps, a, Queued(ka)) && Tried(p, ps, b, Solved(sol))
      ensures Tried(p, ps, a + b, Solved(sol))
    {
      assert Opened(p, ps, a, Queued(ka), 0) && Opened(p, ps, b, Solved(sol), 0);
      assert Opened(p, ps, a + b, Solved(sol), 0);
      FittingConcat(ps, a, b);
      assert Fitting(ps, a + b) == Fitting(ps, b);
    }

    /** A solution found among some candidates stays the first when more candidates follow. */
    lemma TriedSolvedBefore(p: int, ps: seq<Placement>, a: seq<Placement>, c: seq<Placement>, sol: Solution)
      requires Tried(p, ps, a, Solved(sol))
      ensures Tried(p, ps, a + c, Solved(sol))
    {
      assert Opened(p, ps, a, Solved(sol), 0);
      assert Opened(p, ps, a + c, Solved(sol), 0);
      FittingConcat(ps, a, c);
      assert Fitting(ps, a + c)[0] == Fitting(ps, a)[0];
    }

    /** One more anchor of a row, tried after the earlier ones. */
    lemma RowNext(p: int, ps: seq<Placement>, kind: Kind, rot: nat, o: Orientation, y: int, x: int,
                  kids: seq<BoardState>, k: seq<BoardState>)
      requires 0 <= x && Disjoint(kids, k)
      requires Tried(p, ps, RowCands(kind, rot, o, y, x), Queued(kids))
      requires Tried(p, ps, [Placement(kind, rot, o, y, x)], Queued(k))
      ensures Tried(p, ps, RowCands(kind, rot, o, y, x + 1), Queued(kids + k))
    {
      TriedConcat(p, ps, RowCands(kind, rot, o, y, x), [Placement(kind, rot, o, y, x)], kids, k);
    }

    /** A solution at one anchor of a row, after earlier anchors that found none, is the first in the row. */
    lemma RowFound(p: int, ps: seq<Placement>, kind: Kind, rot: nat, o: Orientation, y: int, n: int, x: int,
                   kids: seq<BoardState>, sol: Solution)
      requires 0 <= x < n
      requires Tried(p, ps, RowCands(kind, rot, o, y, x), Queued(kids))
      requires Tried(p, ps, [Placement(kind, rot, o, y, x)], Solved(sol))
      ensures Tried(p, ps, RowCands(kind, rot, o, y, n), Solved(sol))
    {
      TriedSolvedAfter(p, ps, RowCands(kind, rot, o, y, x), [Placement(kind, rot, o, y, x)], kids, sol);
      var rest := RowCandsExtend(kind, rot, o, y, x + 1, n);
      TriedSolvedBefore(p, ps, RowCands(kind, rot, o, y, x + 1), rest, sol);
    }

    /** One more row of an orientation block, tried after the rows above it. */
    lemma BlockNext(p: int, ps: seq<Placement>, kind: Kind, rot: nat, o: Orientation, y: int,
                    kids: seq<BoardState>, k: seq<BoardState>)
      requires 0 <= y && Disjoint(kids, k)
      requires Tried(p, ps, BlockCands(kind, rot, o, w, y), Queued(kids))
      requires Tried(p, ps, RowCands(kind, rot, o, y, w - o.width + 1), Queued(k))
      ensures Tried(p, ps, BlockCands(kind, rot, o, w, y + 1), Queued(kids + k))
    {
      TriedConcat(p, ps, BlockCands(kind, rot, o, w, y), RowCands(kind, rot, o, y, w - o.width + 1), kids, k);
    }

    /** A solution in one row of an orientation block, after rows that found none, is the first in the block. */
    lemma BlockFound(p: int, ps: seq<Placement>, kind: Kind, rot: nat, o: Orientation, m: int, y: int,
                     kids: seq<BoardState>, sol: Solution)
      requires 0 <= y < m
      requires Tried(p, ps, BlockCands(kind, rot, o, w, y), Queued(kids))
      requires Tried(p, ps, RowCands(kind, rot, o, y, w - o.width + 1), Solved(sol))
      ensures Tried(p, ps, BlockCands(kind, rot, o, w, m), Solved(sol))
    {
      TriedSolvedAfter(p, ps, BlockCands(kind, rot, o, w, y), RowCands(kind, rot, o, y, w - o.width + 1), kids, sol);
      var rest := BlockCandsExtend(kind, rot, o, w, y + 1, m);
      TriedSolvedBefore(p, ps, BlockCands(kind, rot, o, w, y + 1), rest, sol);
    }

    /** One more entry of the orientation table, tried after the earlier entries. */
    lemma KindNext(p: int, ps: seq<Placement>, kind: Kind, table: seq<Orientation>, rot: nat,
                   kids: seq<BoardState>, k: seq<BoardState>)
      requires rot < |table| && Disjoint(kids, k)
      requires Tried(p, ps, KindCands(kind, table, h, w, rot), Queued(kids))
      requires Tried(p, ps, BlockCands(kind, rot, table[rot], w, h - table[rot].height + 1), Queued(k))
      ensures Tried(p, ps, KindCands(kind, table, h, w, rot + 1), Queued(kids + k))
    {
      TriedConcat(p, ps, KindCands(kind, table, h, w, rot), BlockCands(kind, rot, table[rot], w, h - table[rot].height + 1), kids, k);
    }

    /** A solution in one entry of the table, after entries that found none, is the first for the piece. */
    lemma KindFound(p: int, ps: seq<Placement>, kind: Kind, table: seq<Orientation>, rot: nat,
                    kids: seq<BoardState>, sol: Solution)
      requires rot < |table|
      requires Tried(p, ps, KindCands(kind, table, h, w, rot), Queued(kids))
      requires Tried(p, ps, BlockCands(kind, rot, table[rot], w, h - table[rot].height + 1), Solved(sol))
      ensures Tried(p, ps, KindCands(kind, table, h, w, |table|), Solved(sol))
    {
      TriedSolvedAfter(p, ps, KindCands(kind, table, h, w, rot), BlockCands(kind, rot, table[rot], w, h - table[rot].height + 1), kids, sol);
      var rest := KindCandsExtend(kind, table, h, w, rot + 1, |table|);
      TriedSolvedBefore(p, ps, KindCands(kind, table, h, w, rot + 1), rest, sol);
    }

    /** On the last piece a placement that fits is the solution. */
    lemma TriedLast(p: int, ps: seq<Placement>, pl: Placement, sol: Solution)
      requires p == |blocks| && Covered(pl) !! Occupied(ps)
      requires sol.board.Length0 == h && sol.board.Length1 == w && sol.shown == ps + [pl]
      ensures Tried(p, ps, [pl], Solved(sol))
    {
      SingleCandidate(h, w, ps, pl);
      assert Opened(p, ps, [pl], Solved(sol), 0);
    }

    /** On any other piece a placement that fits queues one unit for it, unless the region test finds it hopeless. */
    lemma TriedSpawn(p: int, ps: seq<Placement>, pl: Placement, kids: seq<BoardState>)
      requires p != |blocks| && Covered(pl) !! Occupied(ps)
      requires kids == [] <==> HasBadRegion(Free(h, w, ps + [pl]))
      requires |kids| <= 1
      requires forall c :: c in kids ==> c.p == p + 1 && c.placed == ps + [pl] && c.board.Length0 == h && c.board.Length1 == w
      ensures Tried(p, ps, [pl], Queued(kids))
    {
      SingleCandidate(h, w, ps, pl);
      assert Opened(p, ps, [pl], Queued(kids), 0);
      if kids != [] {
        assert kids[0] in kids;
      }
      assert Kids(kids, p + 1, ps, Staged(h, w, ps, [pl]));
    }

    /** A placement that does not fit queues nothing and solves nothing. */
    lemma TriedBlocked(p: int, ps: seq<Placement>, pl: Placement)
      requires !(Covered(pl) !! Occupied(ps))
      ensures Tried(p, ps, [pl], Queued([]))
    {
      SingleCandidate(h, w, ps, pl);
      assert Opened(p, ps, [pl], Queued([]), 0);
      assert Kids([], p + 1, ps, Staged(h, w, ps, [pl]));
    }

    /**
      * One fitting placement of the piece: on the last piece the board with
      * the piece written in is the solution; otherwise the placement may
      * stage a new unit.
      */
    method Stage(u: BoardState, pl: Placement) returns (out: Outcome)
      requires UnitOk(u) && Legal(h, w, blocks, u.placed, pl)
      modifies u.board
      ensures out.Queued? ==> UnitOk(u)
      ensures Tried(u.p, u.placed, [pl], out) && Drawn(out)
      ensures out.Queued? ==> forall c :: c in out.kids ==> fresh(c.board)
    {
      if u.p == |blocks| {
        var sol := Finish(u, pl);
        out := Solved(sol);
      } else {
        var kids := Branch(u, pl);
        out := Queued(kids);
      }
    }

    /** The last piece: write `p` into its four cells and keep a copy of the board as the solution. */
    method Finish(u: BoardState, pl: Placement) returns (sol: Solution)
      requires UnitOk(u) && Legal(h, w, blocks, u.placed, pl) && u.p == |blocks|
      modifies u.board
      ensures fresh(sol.board)
      ensures Tried(u.p, u.placed, [pl], Solved(sol)) && Shows(sol.board, sol.shown)
    {
      ghost var ps := u.placed;
      assert UnitKey(u, 0);
      LegalShaped(h, w, blocks, ps, pl);
      Place(u.board, ps, pl, u.p);
      sol := new Solution(u, ps + [pl]);
      TriedLast(u.p, ps, pl, sol);
    }

    /**
      * Any other piece: write `p` into its four cells; unless the region
      * test finds the board hopeless, stage a copy of it as a new unit; then
      * write 0 back.
      */
    method Branch(u: BoardState, pl: Placement) returns (kids: seq<BoardState>)
      requires UnitOk(u) && Legal(h, w, blocks, u.placed, pl) && u.p != |blocks|
      modifies u.board
      ensures UnitOk(u)
      ensures Tried(u.p, u.placed, [pl], Queued(kids)) && Drawn(Queued(kids))
      ensures forall c :: c in kids ==> fresh(c.board)
    {
      ghost var ps := u.placed;
      assert UnitKey(u, 0);
      ValidSnoc(h, w, blocks, ps, pl);
      LegalShaped(h, w, blocks, ps, pl);
      Place(u.board, ps, pl, u.p);
      kids := u.Spawn(blocks, ps + [pl]);
      assert forall c :: c in kids ==> c.board != u.board;
      Unplace(u.board, ps, pl);
      TriedSpawn(u.p, ps, pl, kids);
      assert UnitKey(u, 0);
    }

    /** One anchor of an orientation block: the fit test on the four target cells, then `Stage`. */
    method Attempt(u: BoardState, kind: Kind, rot: nat, o: Orientation, y: int, x: int) returns (out: Outcome)
      requires UnitOk(u) && kind == blocks[u.p - 1] && rot < |Orientations(kind)| && o == Orientations(kind)[rot]
      requires 0 <= y <= h - o.height && 0 <= x <= w - o.width
      modifies u.board
      ensures out.Queued? ==> UnitOk(u)
      ensures Tried(u.p, u.placed, [Placement(kind, rot, o, y, x)], out) && Drawn(out)
      ensures out.Queued? ==> forall c :: c in out.kids ==> fresh(c.board)
    {
      assert UnitKey(u, 0);
      var pl := At(kind, rot, y, x);
      AtInBounds(h, w, kind, rot, y, x);
      VacantIffFree(u.board, u.placed, pl);
      if Vacant(u.board, Squares(pl)) {
        out := Stage(u, pl);
      } else {
        out := Queued([]);
        TriedBlocked(u.p, u.placed, pl);
      }
    }

    /** The inner loop of an orientation block: every anchor of row `y`, left to right. */
    method ExpandRow(u: BoardState, kind: Kind, rot: nat, o: Orientation, y: int) returns (out: Outcome)
      requires UnitOk(u) && kind == blocks[u.p - 1] && rot < |Orientations(kind)| && o == Orientations(kind)[rot]
      requires 0 <= y <= h - o.height
      modifies u.board
      ensures out.Queued? ==> UnitOk(u)
      ensures Tried(u.p, u.placed, RowCands(kind, rot, o, y, w - o.width + 1), out) && Drawn(out)
      ensures out.Queued? ==> forall c :: c in out.kids ==> fresh(c.board)
    {
      var kids := [];
      var x := 0;
      TriedNone(u.p, u.placed);
      while x <= w - o.width
        invariant 0 <= x && (x == 0 || x <= w - o.width + 1)
        invariant UnitOk(u)
        invariant Tried(u.p, u.placed, RowCands(kind, rot, o, y, x), Queued(kids)) && Drawn(Queued(kids))
        invariant forall c :: c in kids ==> fresh(c.board)
      {
        var r := Attempt(u, kind, rot, o, y, x);
        if r.Solved? {
          RowFound(u.p, u.placed, kind, rot, o, y, w - o.width + 1, x, kids, r.sol);
          return r;
        }
        RowNext(u.p, u.placed, kind, rot, o, y, x, kids, r.kids);
        kids := kids + r.kids;
        x := x + 1;
      }
      assert RowCands(kind, rot, o, y, x) == RowCands(kind, rot, o, y, w - o.width + 1);
      out := Queued(kids);
    }

    /** One orientation block: every anchor row, top to bottom. */
    method ExpandOrientation(u: BoardState, kind: Kind, rot: nat, o: Orientation) returns (out: Outcome)
      requires UnitOk(u) && kind == blocks[u.p - 1] && rot < |Orientations(kind)| && o == Orientations(kind)[rot]
      modifies u.board
      ensures out.Queued? ==> UnitOk(u)
      ensures Tried(u.p, u.placed, BlockCands(kind, rot, o, w, h - o.height + 1), out) && Drawn(out)
      ensures out.Queued? ==> forall c :: c in out.kids ==> fresh(c.board)
    {
      var kids := [];
      var y := 0;
      TriedNone(u.p, u.placed);
      while y <= h - o.height
        invariant 0 <= y && (y == 0 || y <= h - o.height + 1)
        invariant UnitOk(u)
        invariant Tried(u.p, u.placed, BlockCands(kind, rot, o, w, y), Queued(kids)) && Drawn(Queued(kids))
        invariant forall c :: c in kids ==> fresh(c.board)
      {
        var r := ExpandRow(u, kind, rot, o, y);
        if r.Solved? {
          BlockFound(u.p, u.placed, kind, rot, o, h - o.height + 1, y, kids, r.sol);
          return r;
        }
        BlockNext(u.p, u.placed, kind, rot, o, y, kids, r.kids);
        kids := kids + r.kids;
        y := y + 1;
      }
      assert BlockCands(kind, rot, o, w, y) == BlockCands(kind, rot, o, w, h - o.height + 1);
      out := Queued(kids);
    }

    /**
      * The expansion of one work unit (the body of a slave thread's loop
      * after it took the unit): every orientation of the next piece's kind
      * in table order.
      */
    method Expand(u: BoardState) returns (out: Outcome)
      requires UnitOk(u)
      modifies u.board
      ensures out.Queued? ==> UnitOk(u)
      ensures Tried(u.p, u.placed, Candidates(blocks[u.p - 1], h, w), out) && Drawn(out)
      ensures out.Queued? ==> forall c :: c in out.kids ==> fresh(c.board)
    {
      var kind := blocks[u.p - 1];
      var table := Orientations(kind);
      var kids := [];
      var rot := 0;
      TriedNone(u.p, u.placed);
      while rot < |table|
        invariant 0 <= rot <= |table|
        invariant UnitOk(u)
        invariant Tried(u.p, u.placed, KindCands(kind, table, h, w, rot), Queued(kids)) && Drawn(Queued(kids))
        invariant forall c :: c in kids ==> fresh(c.board)
      {
        var o := table[rot];
        var r := ExpandOrientation(u, kind, rot, o);
        if r.Solved? {
          KindFound(u.p, u.placed, kind, table, rot, kids, r.sol);
          return r;
        }
        KindNext(u.p, u.placed, kind, table, rot, kids, r.kids);
        kids := kids + r.kids;
        rot := rot + 1;
      }
      out := Queued(kids);
    }

    /** The solution an expansion yields solves the puzzle: its board shows the whole bag, legally placed. */
    lemma SolvedAnswers(p: int, ps: seq<Placement>, out: Outcome)
      requires 1 <= p <= |blocks| && |ps| == p - 1 && Valid(h, w, blocks, ps) && out.Solved?
      requires Tried(p, ps, Candidates(blocks[p - 1], h, w), out) && Drawn(out)
      ensures Answer(out.sol)
    {
      var cs := Candidates(blocks[p - 1], h, w);
      assert Opened(p, ps, cs, out, 0);
      var c := Fitting(ps, cs)[0];
      assert c in Fitting(ps, cs);
      FittingLegal(h, w, blocks, ps, c);
      ValidSnoc(h, w, blocks, ps, c);
    }

    /**
      * The units an expansion queues are units of the puzzle one piece
      * further on, with boards apart, and there are at most `4 * h * w` of
      * them; the last piece queues none.
      */
    lemma QueuedUnits(p: int, ps: seq<Placement>, out: Outcome)
      requires 0 <= h && 0 <= w && out.Queued?
      requires 1 <= p <= |blocks| && |ps| == p - 1 && Valid(h, w, blocks, ps)
      requires Tried(p, ps, Candidates(blocks[p - 1], h, w), out) && Drawn(out)
      ensures Apart(out.kids) && |out.kids| <= 4 * (h * w)
      ensures p == |blocks| ==> out.kids == []
      ensures forall i :: 0 <= i < |out.kids| ==> out.kids[i].p == p + 1 && UnitOk(out.kids[i])
    {
      var kids := out.kids;
      var cs := Candidates(blocks[p - 1], h, w);
      assert Opened(p, ps, cs, out, 0);
      CandidatesCount(blocks[p - 1], h, w);
      if p != |blocks| {
        var ss :| ss == Staged(h, w, ps, cs) && Kids(kids, p + 1, ps, ss);
        forall i | 0 <= i < |kids|
          ensures UnitOk(kids[i])
        {
          assert ss[i] in ss && kids[i] in kids;
          StagedLegal(h, w, blocks, ps, ss[i]);
          ValidSnoc(h, w, blocks, ps, ss[i]);
        }
      }
    }

    /**
      * An expansion loses no solution: when the pieces cover the board
      * exactly, expanding a completable unit either solves the puzzle or
      * queues a completable unit.
      */
    lemma ExpansionLive(p: int, ps: seq<Placement>, out: Outcome)
      requires 0 <= h && 0 <= w && 4 * |blocks| == h * w
      requires 1 <= p <= |blocks| && |ps| == p - 1 && Completable(h, w, blocks, ps)
      requires Tried(p, ps, Candidates(blocks[p - 1], h, w), out)
      ensures out.Queued? ==> Live(out.kids)
    {
      var cs := Candidates(blocks[p - 1], h, w);
      var c := ExpansionComplete(h, w, blocks, ps);
      if out.Queued? {
        assert Opened(p, ps, cs, out, 0);
        if p == |blocks| {
          assert false;
        }
        var ss :| ss == Staged(h, w, ps, cs) && Kids(out.kids, p + 1, ps, ss);
        var i :| 0 <= i < |ss| && ss[i] == c;
        assert Completable(h, w, blocks, out.kids[i].placed);
      }
    }

    /** The branching bound of the search: more than the candidates of any unit. */
    function Bound(): nat
    {
      if 0 <= h && 0 <= w then 4 * (h * w) + 1 else 1
    }

    /** The termination measure of the worker: the weight of the queue. */
    ghost function Measure(): nat
      reads this
    {
      Weight(queue, Bound(), |blocks|)
    }

    /** Popping a unit and appending fewer than `Bound()` units one piece further on lowers the weight. */
    lemma WeightDrops(rest: seq<BoardState>, u: BoardState, kids: seq<BoardState>)
      requires 1 <= u.p <= |blocks| && |kids| < Bound()
      requires forall i :: 0 <= i < |kids| ==> kids[i].p == u.p + 1
      ensures Weight(rest + kids, Bound(), |blocks|) < Weight(rest + [u], Bound(), |blocks|)
    {
      var B, N := Bound(), |blocks|;
      assert (rest + [u])[..|rest|] == rest;
      WeightConcat(rest, kids, B, N);
      WeightSame(kids, B, N, u.p + 1);
      FewerThanOne(|kids|, B, N + 1 - u.p);
    }

    /** Units of the puzzle with boards apart, joined with more such units on other boards, are still such units. */
    lemma UnitsJoin(rest: seq<BoardState>, kids: seq<BoardState>)
      requires (forall v :: v in rest ==> UnitOk(v)) && Apart(rest)
      requires (forall i :: 0 <= i < |kids| ==> UnitOk(kids[i])) && Apart(kids)
      requires Disjoint(rest, kids)
      ensures (forall v :: v in rest + kids ==> UnitOk(v)) && Apart(rest + kids)
    {
      var q := rest + kids;
      forall v | v in q
        ensures UnitOk(v)
      {
        var i :| 0 <= i < |q| && q[i] == v;
        if i >= |rest| {
          assert kids[i - |rest|] == v;
        }
      }
      forall i, j | 0 <= i < j < |q|
        ensures q[i].board != q[j].board
      {
        if j < |rest| {
          assert q[i] == rest[i] && q[j] == rest[j];
        } else if i >= |rest| {
          assert q[i] == kids[i - |rest|] && q[j] == kids[j - |rest|];
        } else {
          assert q[i] == rest[i] && q[j] == kids[j - |rest|];
        }
      }
    }

    /** Some unit of `rest + kids` can be completed when one of `rest` or one of `kids` can. */
    lemma LiveJoin(rest: seq<BoardState>, kids: seq<BoardState>)
      requires Live(rest) || Live(kids)
      ensures Live(rest + kids)
    {
      if Live(rest) {
        var i :| 0 <= i < |rest| && Completable(h, w, blocks, rest[i].placed);
        assert (rest + kids)[i] == rest[i];
      } else {
        var j :| 0 <= j < |kids| && Completable(h, w, blocks, kids[j].placed);
        assert (rest + kids)[|rest| + j] == kids[j];
      }
    }

    /** If some unit of `rest + [u]` can be completed, `u` or some unit of `rest` can. */
    lemma LiveSplit(rest: seq<BoardState>, u: BoardState)
      requires Live(rest + [u])
      ensures Live(rest) || Completable(h, w, blocks, u.placed)
    {
      var i :| 0 <= i < |rest + [u]| && Completable(h, w, blocks, (rest + [u])[i].placed);
      if i < |rest| {
        assert (rest + [u])[i] == rest[i];
      }
    }

    /**
      * The first half of a turn of the worker: take the last unit of the
      * queue and count it.  The rest of the queue keeps its units, none of
      * them on the board of the unit taken, and loses no solution together
      * with it.
      */
    method Take() returns (u: BoardState)
      requires Inv() && !solved && solution == null && |queue| > 0
      modifies this
      ensures old(queue) == queue + [u] && iterations == old(iterations) + 1
      ensures solved == old(solved) && solution == old(solution) && cachedResult == old(cachedResult)
      ensures UnitOk(u) && Valid(h, w, blocks, u.placed)
      ensures (forall v :: v in queue ==> UnitOk(v) && v.board != u.board) && Apart(queue)
      ensures Completable(h, w, blocks, []) ==> Live(queue) || Completable(h, w, blocks, u.placed)
    {
      u := queue[|queue| - 1];
      var rest := queue[..|queue| - 1];
      assert queue == rest + [u];
      assert u in queue && UnitKey(u, 0);
      forall v | v in rest
        ensures UnitOk(v) && v.board != u.board
      {
        var i :| 0 <= i < |rest| && rest[i] == v;
        assert queue[i] == v && queue[|queue| - 1] == u;
      }
      if Completable(h, w, blocks, []) {
        LiveSplit(rest, u);
      }
      queue := rest;
      iterations := iterations + 1;
    }

    /**
      * The end of a turn whose expansion of `u` found a solution: the worker
      * keeps it, and the state invariant holds again.
      */
    method Keep(u: BoardState, out: Outcome)
      requires !solved && solution == null && cachedResult == null && 0 < h && 0 < w && 4 * |blocks| == h * w
      requires (forall v :: v in queue ==> UnitOk(v)) && Apart(queue)
      requires 1 <= u.p <= |blocks| && |u.placed| == u.p - 1 && Valid(h, w, blocks, u.placed)
      requires out.Solved? && Tried(u.p, u.placed, Candidates(blocks[u.p - 1], h, w), out) && Drawn(out)
      modifies this
      ensures Inv() && !solved && solution == out.sol
      ensures queue == old(queue) && iterations == old(iterations)
    {
      SolvedAnswers(u.p, u.placed, out);
      solution := out.sol;
    }

    /**
      * The end of a turn whose expansion of `u` queued new units: they go
      * to the end of the queue, the state invariant holds again, and the
      * weight of the queue is below its weight with `u`.
      */
    method Push(u: BoardState, out: Outcome)
      requires !solved && solution == null && cachedResult == null && 0 < h && 0 < w && 4 * |blocks| == h * w
      requires (forall v :: v in queue ==> UnitOk(v)) && Apart(queue)
      requires 1 <= u.p <= |blocks| && |u.placed| == u.p - 1 && Valid(h, w, blocks, u.placed)
      requires Completable(h, w, blocks, []) ==> Live(queue) || Completable(h, w, blocks, u.placed)
      requires out.Queued? && Tried(u.p, u.placed, Candidates(blocks[u.p - 1], h, w), out) && Drawn(out)
      requires forall c :: c in out.kids ==> c.board !in Boards(queue)
      modifies this
      ensures Inv() && !solved && solution == null && iterations == old(iterations)
      ensures queue == old(queue) + out.kids
      ensures u.p == |blocks| ==> queue == old(queue)
      ensures Weight(queue, Bound(), |blocks|) < Weight(old(queue) + [u], Bound(), |blocks|)
    {
      var kids := out.kids;
      QueuedUnits(u.p, u.placed, out);
      forall i, j | 0 <= i < |queue| && 0 <= j < |kids|
        ensures queue[i].board != kids[j].board
      {
        assert kids[j] in kids && queue[i] in queue;
      }
      UnitsJoin(queue, kids);
      if Completable(h, w, blocks, []) {
        if !Live(queue) {
          ExpansionLive(u.p, u.placed, out);
        }
        LiveJoin(queue, kids);
      }
      WeightDrops(queue, u, kids);
      queue := queue + kids;
    }

    /**
      * One turn of the worker: take the last unit of the queue and count it,
      * expand it, keep the solution if that finds one, and otherwise append
      * the new units to the queue.  The weight of the queue drops, and the
      * state invariant holds again.
      */
    method Step()
      requires Inv() && !solved && solution == null && |queue| > 0
      modifies this, queue[|queue| - 1].board
      ensures Inv() && !solved && iterations == old(iterations) + 1
      ensures |queue| >= |old(queue)| - 1 && queue[..|old(queue)| - 1] == old(queue)[..|old(queue)| - 1]
      ensures solution != null || old(queue)[|old(queue)| - 1].p == |blocks| ==> queue == old(queue)[..|old(queue)| - 1]
      ensures forall v :: v in queue ==> v in old(queue) || fresh(v.board)
      ensures Measure() < old(Measure())
    {
      var u := Take();
      ghost var rest := queue;
      var out := Expand(u);
      assert forall v :: v in queue ==> UnitOk(v);
      if out.Solved? {
        Keep(u, out);
        assert (rest + [u])[..|rest|] == rest;
      } else {
        Push(u, out);
      }
      assert rest == old(queue)[..|old(queue)| - 1];
    }

    /**
      * `solve`: a solved puzzle answers from its cache; otherwise the worker
      * takes units until it holds a solution or the queue runs dry, and the
      * outcome is cached.  The answer is a solution exactly when the bag can
      * cover the board.
      */
    method Solve() returns (res: Solution?)
      requires Inv()
      modifies this, Boards(queue)
      ensures Inv() && solved && res == cachedResult
      ensures old(solved) ==> res == old(cachedResult) && iterations == old(iterations)
      ensures res != null ==> Answer(res)
      ensures !old(solved) ==> (res != null <==> Completable(h, w, blocks, []))
    {
      if solved {
        return cachedResult;
      }
      while solution == null && |queue| > 0
        invariant Inv() && !solved
        invariant forall v :: v in queue ==> v.board in old(Boards(queue)) || fresh(v.board)
        decreases Measure()
      {
        assert queue[|queue| - 1] in queue;
        Step();
      }
      assert Completable(h, w, blocks, []) ==> solution != null;
      if solution != null {
        assert [] + solution.shown == solution.shown;
        assert Completes(h, w, blocks, [], solution.shown);
      }
      res := solution;
      cachedResult := res;
      solved := true;
    }

    // -------------------------------------------------------------------
    // Checkpoints

    /** `serializeBoard` on row `y`: its cells, left to right, each as a Java `int`. */
    static method SerializeRow(a: array2<int>, y: int) returns (bs: seq<byte>)
      requires 0 <= y < a.Length0
      ensures bs == RowBytes(RowOf(a, y))
    {
      bs := [];
      var x := 0;
      while x < a.Length1
        invariant 0 <= x <= a.Length1
        invariant bs == RowBytes(RowOf(a, y)[..x])
      {
        JoinPrefix(IntBytes, RowOf(a, y), x);
        bs := bs + IntBytes(a[y, x]);
        x := x + 1;
      }
      assert RowOf(a, y)[..x] == RowOf(a, y);
    }

    /** `serializeBoard`: the rows of a board, top to bottom; the size is not written. */
    static method SerializeBoard(a: array2<int>) returns (bs: seq<byte>)
      ensures bs == GridBytes(Grid(a))
    {
      bs := [];
      var y := 0;
      while y < a.Length0
        invariant 0 <= y <= a.Length0
        invariant bs == GridBytes(Grid(a)[..y])
      {
        var row := SerializeRow(a, y);
        JoinPrefix(RowBytes, Grid(a), y);
        bs := bs + row;
        y := y + 1;
      }
      assert Grid(a)[..y] == Grid(a);
    }

    /**
      * `deserializeBoard` on row `y`: reads its cells left to right, as the
      * stream `bs` holds them, and returns the rest of the stream; nothing
      * when the stream ends first.  The other rows keep their cells.
      */
    static method DeserializeRow(a: array2<int>, y: int, bs: seq<byte>) returns (rest: Option<seq<byte>>)
      requires 0 <= y < a.Length0
      modifies a
      ensures rest.None? <==> ReadRow(bs, a.Length1).None?
      ensures rest.Some? ==> ReadRow(bs, a.Length1) == Some((RowOf(a, y), rest.value))
      ensures forall i, j :: 0 <= i < a.Length0 && i != y && 0 <= j < a.Length1 ==> a[i, j] == old(a[i, j])
    {
      var cur := bs;
      var x := 0;
      ghost var done: seq<int> := [];
      PrependNone(ReadRow(bs, a.Length1));
      while x < a.Length1
        invariant 0 <= x <= a.Length1 && |done| == x
        invariant forall j :: 0 <= j < x ==> a[y, j] == done[j]
        invariant ReadRow(bs, a.Length1) == Prepend(done, ReadMany(ReadInt, cur, a.Length1 - x))
        invariant forall i, j :: 0 <= i < a.Length0 && i != y && 0 <= j < a.Length1 ==> a[i, j] == old(a[i, j])
      {
        ReadManyStep(ReadInt, done, cur, a.Length1 - x);
        if |cur| < 4 {
          return None;
        }
        a[y, x] := IntOf(cur);
        done := done + [IntOf(cur)];
        cur := cur[4..];
        x := x + 1;
      }
      assert done + [] == done;
      assert done == RowOf(a, y);
      return Some(cur);
    }

    /**
      * `deserializeBoard`: reads the rows of the board top to bottom, as
      * the stream `bs` holds them, and returns the rest of the stream;
      * nothing when the stream ends first.
      */
    static method DeserializeBoard(a: array2<int>, bs: seq<byte>) returns (rest: Option<seq<byte>>)
      modifies a
      ensures rest.None? <==> ReadGrid(bs, a.Length0, a.Length1).None?
      ensures rest.Some? ==> ReadGrid(bs, a.Length0, a.Length1) == Some((Grid(a), rest.value))
    {
      var cur := bs;
      var y := 0;
      ghost var done: seq<seq<int>> := [];
      PrependNone(ReadGrid(bs, a.Length0, a.Length1));
      while y < a.Length0
        invariant 0 <= y <= a.Length0 && |done| == y
        invariant forall i :: 0 <= i < y ==> |done[i]| == a.Length1
        invariant forall i, j :: 0 <= i < y && 0 <= j < a.Length1 ==> a[i, j] == done[i][j]
        invariant ReadGrid(bs, a.Length0, a.Length1) == Prepend(done, ReadMany(RowReader(a.Length1), cur, a.Length0 - y))
      {
        ReadManyStep(RowReader(a.Length1), done, cur, a.Length0 - y);
        var r := DeserializeRow(a, y, cur);
        if r.None? {
          return None;
        }
        done := done + [RowOf(a, y)];
        cur := r.value;
        y := y + 1;
      }
      assert done + [] == done;
      forall i | 0 <= i < a.Length0
        ensures Grid(a)[i] == done[i]
      {
        assert RowOf(a, i) == done[i];
      }
      assert Grid(a) == done;
      return Some(cur);
    }

    /**
      * The state a checkpoint records: a finished solve records its result;
      * otherwise a solution the worker holds comes first, then an empty
      * queue records that there is no solution, and any other queue is
      * recorded unit by unit.
      */
    function Saved(): (s: Snapshot)
      reads this, Boards(queue)
      reads if cachedResult == null then {} else {cachedResult.board}
      reads if solution == null then {} else {solution.board}
      ensures s.rows == h && s.cols == w && s.bag == blocks
      // a solution the worker holds is never lost
      ensures !solved && solution != null ==> s.progress == Found(Grid(solution.board))
      // "impossible" is recorded only when no solution exists or none is left to find
      ensures s.progress.Impossible? <==>
                (if solved then cachedResult == null else solution == null && queue == [])
      ensures s.progress.Running? <==> !solved && solution == null && queue != []
    {
      Snapshot(h, w, blocks,
        if solved then (if cachedResult == null then Impossible else Found(Grid(cachedResult.board)))
        else if solution != null then Found(Grid(solution.board))
        else if queue == [] then Impossible
        else Running(Units(queue)))
    }

    /**
      * The state `saveState` records as written: on an unfinished solve it
      * tests for an empty queue before it looks for a solution the workers
      * hold.
      */
    function SavedAsWritten(): (s: Snapshot)
      reads this, Boards(queue)
      reads if cachedResult == null then {} else {cachedResult.board}
      reads if solution == null then {} else {solution.board}
      // an unfinished solve with an empty queue is recorded as impossible, solution or not
      ensures !solved && queue == [] ==> s.progress == Impossible
      // in every other state it records what the corrected order records
      ensures solved || queue != [] ==> s == Saved()
    {
      Snapshot(h, w, blocks,
        if solved then (if cachedResult == null then Impossible else Found(Grid(cachedResult.board)))
        else if queue == [] then Impossible
        else if solution != null then Found(Grid(solution.board))
        else Running(Units(queue)))
    }

    /** The bag as `saveState` writes it: one Java `char` per piece, in bag order. */
    static method WriteBag(bag: seq<Kind>) returns (bs: seq<byte>)
      ensures bs == Join(CharBytes, bag)
    {
      bs := [];
      var i := 0;
      while i < |bag|
        invariant 0 <= i <= |bag|
        invariant bs == Join(CharBytes, bag[..i])
      {
        JoinPrefix(CharBytes, bag, i);
        bs := bs + CharBytes(bag[i]);
        i := i + 1;
      }
      assert bag[..i] == bag;
    }

    /** The work units of a queue as `saveState` writes them, oldest first. */
    static method WriteUnits(q: seq<BoardState>) returns (bs: seq<byte>)
      ensures bs == Join(UnitBytes, Units(q))
    {
      bs := [];
      var k := 0;
      ghost var us := Units(q);
      while k < |q|
        invariant 0 <= k <= |q|
        invariant us == Units(q) && bs == Join(UnitBytes, us[..k])
      {
        var g := SerializeBoard(q[k].board);
        assert us[k] == SavedUnit(Grid(q[k].board), q[k].p);
        JoinPrefix(UnitBytes, us, k);
        bs := bs + (g + IntBytes(q[k].p));
        k := k + 1;
      }
      assert us[..k] == us;
    }

    /** The status byte of a checkpoint and what follows it. */
    method WriteProgress() returns (bs: seq<byte>)
      ensures bs == ProgressBytes(Saved().progress)
    {
      if solved {
        if cachedResult == null {
          bs := [2];
        } else {
          var g := SerializeBoard(cachedResult.board);
          bs := [1] + g;
        }
      } else if solution != null {
        var g := SerializeBoard(solution.board);
        bs := [1] + g;
      } else if queue == [] {
        bs := [2];
      } else {
        var us := WriteUnits(queue);
        bs := [0] + IntBytes(|queue|) + us;
      }
    }

    /**
      * `saveState`: the checkpoint of the solver: MAGIC, the dimensions and
      * the bag, the status with its boards, MAGIC again.
      */
    method SaveState() returns (bs: seq<byte>)
      ensures bs == Encode(Saved())
    {
      var bag := WriteBag(blocks);
      var status := WriteProgress();
      bs := MAGIC + IntBytes(h) + IntBytes(w) + IntBytes(|blocks|) + bag + status + MAGIC;
    }

    /** The pieces of a checkpoint, read one Java `char` at a time, each checked to name a piece. */
    static method ReadBlocks(bs: seq<byte>, n: int) returns (r: Option<(seq<Kind>, seq<byte>)>)
      ensures r == ReadMany(ReadChar, bs, n)
    {
      var cur := bs;
      var m := n;
      var bag: seq<Kind> := [];
      ghost var whole := ReadMany(ReadChar, bs, n);
      PrependNone(whole);
      while m > 0
        invariant whole == Prepend(bag, ReadMany(ReadChar, cur, m))
      {
        var c := ReadChar(cur);
        if c.None? {
          ReadManyStop(ReadChar, bag, cur, m);
          return None;
        }
        ghost var bag0, cur0 := bag, cur;
        bag := bag + [c.value.0];
        cur := c.value.1;
        m := m - 1;
        ReadManyNext(ReadChar, bag0, cur0, m + 1, m, c.value.0, cur);
      }
      assert bag + [] == bag;
      return Some((bag, cur));
    }

    /** One work unit of a running checkpoint: a fresh board read from the stream and the piece number after it. */
    static method ReadSaved(bs: seq<byte>, rows: int, cols: int) returns (u: BoardState?, rest: seq<byte>)
      requires rows > 0 && cols > 0
      ensures u == null <==> UnitReader(rows, cols)(bs).None?
      ensures u != null ==> UnitReader(rows, cols)(bs) == Some((SavedUnit(Grid(u.board), u.p), rest))
      ensures u != null ==> fresh(u.board) && u.board.Length0 == rows && u.board.Length1 == cols
    {
      var b := NewBoard(rows, cols);
      var r := DeserializeBoard(b, bs);
      if r.None? || |r.value| < 4 {
        return null, [];
      }
      u := new BoardState.Loaded(b, IntOf(r.value));
      rest := r.value[4..];
    }

    /**
      * The work units of a running checkpoint: `n` units, each a fresh
      * `rows` x `cols` board read from the stream and the piece number read
      * after it; nothing when the stream ends first.
      */
    static method ReadQueue(bs: seq<byte>, n: int, rows: int, cols: int) returns (q: seq<BoardState>, rest: Option<seq<byte>>)
      requires rows > 0 && cols > 0
      ensures rest.None? <==> ReadMany(UnitReader(rows, cols), bs, n).None?
      ensures rest.Some? ==> ReadMany(UnitReader(rows, cols), bs, n) == Some((Units(q), rest.value))
      ensures Apart(q) && forall u :: u in q ==> fresh(u.board) && u.board.Length0 == rows && u.board.Length1 == cols
    {
      var cur := bs;
      var m := n;
      q := [];
      ghost var done: seq<SavedUnit> := [];
      ghost var item := UnitReader(rows, cols);
      ghost var whole := ReadMany(item, bs, n);
      PrependNone(whole);
      while m > 0
        invariant Apart(q) && forall u :: u in q ==> fresh(u.board) && u.board.Length0 == rows && u.board.Length1 == cols
        invariant Units(q) == done
        invariant whole == Prepend(done, ReadMany(item, cur, m))
      {
        var s, next := ReadSaved(cur, rows, cols);
        if s == null {
          ReadManyStop(item, done, cur, m);
          return q, None;
        }
        ghost var unit := SavedUnit(Grid(s.board), s.p);
        assert (q + [s])[..|q|] == q;
        ghost var done0, cur0, m0 := done, cur, m;
        done := done + [unit];
        q := q + [s];
        cur := next;
        m := m - 1;
        ReadManyNext(item, done0, cur0, m0, m, unit, cur);
      }
      assert done + [] == done;
      return q, Some(cur);
    }

    /** The state a loaded solver holds for each status of a checkpoint. */
    static ghost predicate Holds(pr: Progress, finished: bool, result: Solution?, units: seq<BoardState>)
      reads if result == null then {} else {result.board}
      reads Boards(units)
    {
      match pr
      case Impossible => finished && result == null && units == []
      case Found(g) => finished && result != null && Grid(result.board) == g && units == []
      case Running(us) => !finished && result == null && Units(units) == us && Apart(units)
    }

    /**
      * The status of a checkpoint: the solver's `solved`, its cached result
      * and its work units, read from the stream; nothing for an unknown
      * status or a stream that ends first.
      */
    static method ReadStatus(bs: seq<byte>, rows: int, cols: int)
        returns (finished: bool, result: Solution?, units: seq<BoardState>, rest: Option<seq<byte>>)
      requires rows > 0 && cols > 0
      ensures rest.None? <==> ReadProgress(bs, rows, cols).None?
      ensures rest.Some? ==> ReadProgress(bs, rows, cols).value.1 == rest.value
      ensures rest.Some? ==> Holds(ReadProgress(bs, rows, cols).value.0, finished, result, units)
      ensures result != null ==> fresh(result.board) && result.board.Length0 == rows && result.board.Length1 == cols
      ensures forall u :: u in units ==> fresh(u.board) && u.board.Length0 == rows && u.board.Length1 == cols
    {
      finished, result, units, rest := false, null, [], None;
      if |bs| < 1 {
        return;
      }
      ghost var pr := ReadProgress(bs, rows, cols);
      if bs[0] == 2 {
        finished, rest := true, Some(bs[1..]);
        assert pr == Some((Impossible, bs[1..]));
      } else if bs[0] == 1 {
        var b := NewBoard(rows, cols);
        var r := DeserializeBoard(b, bs[1..]);
        if r.Some? {
          result := new Solution.Wrap(b);
          finished, rest := true, r;
          assert pr == Some((Found(Grid(b)), r.value));
        } else {
          assert pr == None;
        }
      } else if bs[0] == 0 {
        if |bs| < 5 {
          assert pr == None;
          return;
        }
        assert ReadInt(bs[1..]) == Some((IntOf(bs[1..]), bs[5..]));
        units, rest := ReadQueue(bs[5..], IntOf(bs[1..]), rows, cols);
        if rest.None? {
          units := [];
          assert pr == None;
        } else {
          assert pr == Some((Running(Units(units)), rest.value));
        }
      } else {
        assert pr == None;
      }
    }

    /** A solver in the state a checkpoint records, with no solution held and no units processed. */
    constructor Restored(rows: int, cols: int, bag: seq<Kind>, finished: bool, result: Solution?, units: seq<BoardState>)
      ensures h == rows && w == cols && blocks == bag
      ensures solved == finished && cachedResult == result && queue == units
      ensures solution == null && iterations == 0
    {
      h, w, blocks := rows, cols, bag;
      solved, cachedResult, queue := finished, result, units;
      solution, iterations := null, 0;
    }

    /** This solver is one loaded from a checkpoint that reads back as `s`. */
    ghost predicate Restores(s: Snapshot)
      reads this, Boards(queue)
      reads if cachedResult == null then {} else {cachedResult.board}
    {
      h == s.rows && w == s.cols && blocks == s.bag && solution == null && iterations == 0 &&
      Holds(s.progress, solved, cachedResult, queue) &&
      (cachedResult != null ==> cachedResult.board.Length0 == h && cachedResult.board.Length1 == w) &&
      (forall u :: u in queue ==> u.board.Length0 == h && u.board.Length1 == w)
    }

    /**
      * `loadState`: a solver in the state the checkpoint records, or
      * `CorruptCheckpoint` for a stream that does not read back as one.
      */
    static method LoadState(bs: seq<byte>) returns (r: Result<TetrisPuzzleSolverMT>)
      ensures r.Ok? <==> Decode(bs).Ok?
      ensures r.Err? ==> r.error == CorruptCheckpoint
      ensures r.Ok? ==> fresh(r.value) && r.value.Restores(Decode(bs).value)
      ensures r.Ok? && r.value.cachedResult != null ==> fresh(r.value.cachedResult.board)
      ensures r.Ok? ==> forall u :: u in r.value.queue ==> fresh(u.board)
    {
      if |bs| < 16 || bs[..4] != MAGIC {
        return Err(CorruptCheckpoint);
      }
      var rows, cols := IntOf(bs[4..8]), IntOf(bs[8..12]);
      if rows < 1 || cols < 1 {
        return Err(CorruptCheckpoint);
      }
      var n := IntOf(bs[12..16]);
      if n < 1 {
        return Err(CorruptCheckpoint);
      }
      var bag := ReadBlocks(bs[16..], n);
      if bag.None? {
        return Err(CorruptCheckpoint);
      }
      var finished, result, units, rest := ReadStatus(bag.value.1, rows, cols);
      if rest.None? || |rest.value| < 4 || rest.value[..4] != MAGIC {
        return Err(CorruptCheckpoint);
      }
      var solver := new TetrisPuzzleSolverMT.Restored(rows, cols, bag.value.0, finished, result, units);
      return Ok(solver);
    }

    /**
      * What a loaded solver saves: the checkpoint it was loaded from, except
      * that a running checkpoint without units is saved as one without a
      * solution.
      */
    lemma RestoresSaved(s: Snapshot)
      requires Restores(s)
      ensures Saved() == if s.progress == Running([]) then s.(progress := Impossible) else s
    {
      if s.progress.Running? && queue != [] {
        assert |Units(queue)| == |queue|;
      }
    }

    /** The board a solution or a work unit shows is a board of Java `int`s. */
    static lemma ShownGrid(a: array2<int>, ps: seq<Placement>, rows: int, cols: int)
      requires Shows(a, ps) && a.Length0 == rows && a.Length1 == cols && |ps| <= INT32_MAX
      ensures GridOk(Grid(a), rows, cols)
    {
      forall y | 0 <= y < rows
        ensures |Grid(a)[y]| == cols && forall x :: 0 <= x < cols ==> IsInt32(Grid(a)[y][x])
      {
        forall x | 0 <= x < cols
          ensures IsInt32(Grid(a)[y][x])
        {
          assert Grid(a)[y][x] == a[y, x] == Label(ps, (y, x));
        }
      }
    }

    /**
      * A checkpoint of a solver whose dimensions, bag and queue fit Java
      * `int`s, on a board of at least one cell and with at least one piece,
      * is one `loadState` accepts.
      */
    lemma SavedLoadable()
      requires Inv()
      requires 1 <= h <= INT32_MAX && 1 <= w <= INT32_MAX && 1 <= |blocks| <= INT32_MAX && |queue| <= INT32_MAX
      ensures Loadable(Saved())
    {
      if solved {
        if cachedResult != null {
          ShownGrid(cachedResult.board, cachedResult.shown, h, w);
        }
      } else if solution != null {
        ShownGrid(solution.board, solution.shown, h, w);
      } else if queue != [] {
        var us := Units(queue);
        forall u | u in us
          ensures SavedOk(u, h, w)
        {
          var i :| 0 <= i < |us| && us[i] == u;
          var v := queue[i];
          assert v in queue;
          assert UnitOk(v) && UnitKey(v, 0);
          ShownGrid(v.board, v.placed, h, w);
        }
      }
    }

    /**
      * Saving the solver and loading the checkpoint back gives a solver that
      * saves the same checkpoint.
      */
    method Reload() returns (r: Result<TetrisPuzzleSolverMT>)
      requires Loadable(Saved())
      ensures r.Ok? && r.value.Saved() == Saved()
    {
      var bs := SaveReadable();
      ghost var saved := Saved();
      ghost var us := Units(queue);
      r := LoadSaved(bs, saved);
      assert Units(queue) == us;
    }

    /** A checkpoint of a loadable state reads back as that state, which is not a running one without units. */
    method SaveReadable() returns (bs: seq<byte>)
      requires Loadable(Saved())
      ensures Decode(bs) == Ok(Saved()) && Saved().progress != Running([])
    {
      ghost var saved := Saved();
      assert saved.progress != Running([]) by {
        if saved.progress.Running? {
          assert |Units(queue)| == |queue| > 0;
        }
      }
      ghost var us := Units(queue);
      bs := SaveState();
      assert Units(queue) == us;
      assert Decode(bs) == Ok(saved) by {
        var e := Encode(saved);
        DecodeEncode(saved, []);
        assert e + [] == e;
      }
    }

    /** Loading a checkpoint that reads back as `s` gives a solver that saves `s`. */
    static method LoadSaved(bs: seq<byte>, ghost s: Snapshot) returns (r: Result<TetrisPuzzleSolverMT>)
      requires Decode(bs) == Ok(s) && s.progress != Running([])
      ensures r.Ok? && r.value.Saved() == s
    {
      r := LoadState(bs);
      r.value.RestoresSaved(s);
    }

    /**
      * The order of the tests in `saveState` as written: a worker that took
      * the last unit of the queue and completed it holds a solution of a
      * solvable puzzle, and the checkpoint records that the puzzle has none.
      */
    lemma SaveLosesSolution()
      requires !solved && solution != null && Answer(solution) && queue == []
      ensures Completable(h, w, blocks, [])
      ensures SavedAsWritten().progress == Impossible
      ensures Saved().progress == Found(Grid(solution.board))
    {
      assert [] + solution.shown == solution.shown;
      assert Completes(h, w, blocks, [], solution.shown);
    }
  }

  /** The O piece in the top-left corner of a 2 x 2 board completes a bag of one O. */
  lemma OneSquare()
    ensures Completable(2, 2, [O], [])
  {
    var pl := Placement(O, 0, Orientations(O)[0], 0, 0);
    assert Squares(pl) == [(0, 0), (1, 0), (0, 1), (1, 1)];
    assert Legal(2, 2, [O], [], pl);
    assert Completes(2, 2, [O], [], [pl]) by {
      assert [] + [pl] == [pl];
      assert [pl][..0] == [];
    }
  }

  /**
    * One O on a 2 x 2 board after one step of the worker: it placed the
    * piece in the only unit, so it holds a solution and the queue is empty.
    */
  method SolvedInOneStep() returns (s: TetrisPuzzleSolverMT)
    ensures !s.solved && s.solution != null && s.Answer(s.solution) && s.queue == []
  {
    s := OneO();
    s.Step();
    OneSquare();
  }

  /** The solver for one O on a 2 x 2 board, before any step. */
  method OneO() returns (s: TetrisPuzzleSolverMT)
    ensures s.Inv() && !s.solved && s.solution == null
    ensures s.h == 2 && s.w == 2 && s.blocks == [O]
    ensures |s.queue| == 1 && s.queue[0].p == 1 && fresh(s.queue[0].board)
  {
    OneSwap(0, 0, 1);
    s := Start(2, 2, Counts(0, 1, 0, 0, 0, 0, 0), [(0, 0)]);
    OnlyO(s.blocks);
  }

  /** The constructor for counts whose area matches the board: one empty work unit. */
  method Start(width: int, height: int, c: Counts, swaps: seq<(int, int)>) returns (s: TetrisPuzzleSolverMT)
    requires c.NonNegative() && |swaps| == c.Total() && InRange(swaps, c.Total())
    requires 4 * c.Total() == width * height && width > 0 && height > 0
    ensures s.Inv() && !s.solved && s.solution == null
    ensures s.h == height && s.w == width && forall k :: multiset(s.blocks)[k] == c.Of(k)
    ensures |s.queue| == 1 && s.queue[0].p == 1 && fresh(s.queue[0].board)
  {
    s := new TetrisPuzzleSolverMT(width, height, c, swaps);
  }

  /** A single swap of two positions of a bag of `n` pieces is in range. */
  lemma OneSwap(a: int, b: int, n: int)
    requires 0 <= a < n && 0 <= b < n
    ensures InRange([(a, b)], n)
  {
    var sw := [(a, b)];
    forall m | 0 <= m < |sw|
      ensures 0 <= sw[m].0 < n && 0 <= sw[m].1 < n
    {
      assert m == 0;
    }
  }

  /** A bag of one O and no other piece. */
  lemma OnlyO(b: seq<Kind>)
    requires forall k :: multiset(b)[k] == Counts(0, 1, 0, 0, 0, 0, 0).Of(k)
    ensures b == [O]
  {
    assert multiset(b) == multiset{O};
    assert |b| == |multiset(b)| == 1;
    assert b[0] in multiset(b);
  }

  /** A run that reaches the lost solution: the checkpoint as written records no solution. */
  method LostSolution() returns (s: TetrisPuzzleSolverMT)
    ensures s.SavedAsWritten().progress == Impossible && s.Saved().progress.Found?
    ensures Completable(s.h, s.w, s.blocks, [])
  {
    s := SolvedInOneStep();
    s.SaveLosesSolution();
  }
}
