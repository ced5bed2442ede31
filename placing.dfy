/**
  * What both solvers do with one placement on a board array: the fit test
  * (the four target cells are 0), writing the piece number `p` into those
  * four cells, and writing 0 back to undo it.  A board array "shows" a list
  * of placements when every cell holds the label `Label` gives it.
  */
module Placing {

  import opened Shapes
  import opened Regions
  import opened Tiling
  import opened Board

  /** Every cell of the array holds the label the placements `ps` give it. */
  ghost predicate Shows(a: array2<int>, ps: seq<Placement>)
    reads a
  {
    forall i, j :: 0 <= i < a.Length0 && 0 <= j < a.Length1 ==> a[i, j] == Label(ps, (i, j))
  }

  /** The next piece after `ps` is `pl` and the rest of the bag can be placed after it. */
  ghost predicate Leads(R: int, C: int, bag: seq<Kind>, ps: seq<Placement>, pl: Placement)
  {
    exists ext {:trigger Completes(R, C, bag, ps + [pl], ext)} :: Legal(R, C, bag, ps, pl) && Completes(R, C, bag, ps + [pl], ext)
  }

  /** Entry `rot` of the table for kind `k`, anchored at (y, x). */
  function At(k: Kind, rot: nat, y: int, x: int): (pl: Placement)
    requires rot < |Orientations(k)|
    ensures pl.kind == k && pl.rot == rot && pl.y == y && pl.x == x
  {
    Placement(k, rot, Orientations(k)[rot], y, x)
  }

  /** Every placement taken from the table is one of the `At` placements. */
  lemma TabledIsAt(pl: Placement)
    requires Tabled(pl)
    ensures pl == At(pl.kind, pl.rot, pl.y, pl.x)
  {
  }

  /**
    * A placement's anchor ranges over the loops' bounds exactly when the piece
    * lies on the board.
    */
  lemma AtInBounds(R: int, C: int, k: Kind, rot: nat, y: int, x: int)
    requires rot < |Orientations(k)|
    ensures Shaped(At(k, rot, y, x))
    ensures InBounds(R, C, At(k, rot, y, x)) <==>
      0 <= y <= R - Orientations(k)[rot].height && 0 <= x <= C - Orientations(k)[rot].width
  {
    var pl := At(k, rot, y, x);
    TabledShaped(pl);
    AnchorRange(R, C, pl);
  }

  /**
    * A completable state with pieces left has a next move among those the
    * solvers' loops visit: some table entry of the next kind, anchored
    * inside the loop bounds, that keeps the state completable.
    */
  lemma NextMove(R: int, C: int, bag: seq<Kind>, ps: seq<Placement>) returns (rot: nat, y: int, x: int)
    requires Completable(R, C, bag, ps) && |ps| < |bag|
    ensures rot < |Orientations(bag[|ps|])|
    ensures 0 <= y <= R - Orientations(bag[|ps|])[rot].height
    ensures 0 <= x <= C - Orientations(bag[|ps|])[rot].width
    ensures Leads(R, C, bag, ps, At(bag[|ps|], rot, y, x))
  {
    var pl := FirstPiece(R, C, bag, ps);
    TabledIsAt(pl);
    AtInBounds(R, C, pl.kind, pl.rot, pl.y, pl.x);
    rot, y, x := pl.rot, pl.y, pl.x;
  }

  /** No anchor of row `y` of entry `rot` of the table for `k` left of column `n` leads anywhere. */
  ghost predicate NoneLeadsInRow(R: int, C: int, bag: seq<Kind>, ps: seq<Placement>, k: Kind, rot: nat, y: int, n: int)
    requires rot < |Orientations(k)|
  {
    forall x :: 0 <= x < n && x <= C - Orientations(k)[rot].width ==> !Leads(R, C, bag, ps, At(k, rot, y, x))
  }

  /** No anchor of entry `rot` of the table for `k` above row `m` leads anywhere. */
  ghost predicate NoneLeadsInBlock(R: int, C: int, bag: seq<Kind>, ps: seq<Placement>, k: Kind, rot: nat, m: int)
    requires rot < |Orientations(k)|
  {
    forall y, x :: 0 <= y < m && y <= R - Orientations(k)[rot].height && 0 <= x <= C - Orientations(k)[rot].width ==>
      !Leads(R, C, bag, ps, At(k, rot, y, x))
  }

  /** No anchor of the first `n` entries of the table for `k` leads anywhere. */
  ghost predicate NoneLeads(R: int, C: int, bag: seq<Kind>, ps: seq<Placement>, k: Kind, n: nat)
    requires n <= |Orientations(k)|
  {
    forall q, y, x :: 0 <= q < n && 0 <= y <= R - Orientations(k)[q].height && 0 <= x <= C - Orientations(k)[q].width ==>
      !Leads(R, C, bag, ps, At(k, q, y, x))
  }

  /** One more anchor of the row that leads nowhere. */
  lemma RowStep(R: int, C: int, bag: seq<Kind>, ps: seq<Placement>, k: Kind, rot: nat, y: int, x: int)
    requires rot < |Orientations(k)| && 0 <= x
    requires NoneLeadsInRow(R, C, bag, ps, k, rot, y, x) && !Leads(R, C, bag, ps, At(k, rot, y, x))
    ensures NoneLeadsInRow(R, C, bag, ps, k, rot, y, x + 1)
  {
  }

  /** One more row of the block that leads nowhere. */
  lemma BlockStep(R: int, C: int, bag: seq<Kind>, ps: seq<Placement>, k: Kind, rot: nat, y: int)
    requires rot < |Orientations(k)| && 0 <= y
    requires NoneLeadsInBlock(R, C, bag, ps, k, rot, y)
    requires NoneLeadsInRow(R, C, bag, ps, k, rot, y, C - Orientations(k)[rot].width + 1)
    ensures NoneLeadsInBlock(R, C, bag, ps, k, rot, y + 1)
  {
  }

  /** One more table entry that leads nowhere. */
  lemma KindStep(R: int, C: int, bag: seq<Kind>, ps: seq<Placement>, k: Kind, rot: nat)
    requires rot < |Orientations(k)|
    requires NoneLeads(R, C, bag, ps, k, rot)
    requires NoneLeadsInBlock(R, C, bag, ps, k, rot, R - Orientations(k)[rot].height + 1)
    ensures NoneLeads(R, C, bag, ps, k, rot + 1)
  {
  }

  /**
    * When no anchor of any table entry of the next kind leads anywhere, the
    * state is not completable: the search over the table misses no move.
    */
  lemma NoneLeadsEnd(R: int, C: int, bag: seq<Kind>, ps: seq<Placement>)
    requires |ps| < |bag|
    ensures Completable(R, C, bag, ps) ==> !NoneLeads(R, C, bag, ps, bag[|ps|], |Orientations(bag[|ps|])|)
  {
    if Completable(R, C, bag, ps) {
      var rot, y, x := NextMove(R, C, bag, ps);
    }
  }

  /** The label a cell gets once one more piece is placed. */
  lemma LabelSnoc(ps: seq<Placement>, pl: Placement, c: Cell)
    ensures Label(ps + [pl], c) == if c in Covered(pl) then |ps| + 1 else Label(ps, c)
  {
    assert (ps + [pl])[..|ps|] == ps;
  }

  /**
    * A board that shows a legal list has exactly the free cells of the list
    * as its zero cells, and carries no flood-fill mark: the preconditions of
    * the pruning test.
    */
  lemma ShownZeros(a: array2<int>, bag: seq<Kind>, ps: seq<Placement>)
    requires Shows(a, ps) && Valid(a.Length0, a.Length1, bag, ps)
    ensures Zeros(a, Free(a.Length0, a.Length1, ps)) && Unmarked(a)
  {
    forall i, j | 0 <= i < a.Length0 && 0 <= j < a.Length1
      ensures a[i, j] == 0 <==> (i, j) in Free(a.Length0, a.Length1, ps)
    {
      LabelZero(ps, (i, j));
    }
  }

  /** The four cells lie on the board of `a`. */
  predicate OnArray(a: array2<int>, cs: seq<Cell>)
  {
    |cs| == 4 && forall k :: 0 <= k < 4 ==> 0 <= cs[k].0 < a.Length0 && 0 <= cs[k].1 < a.Length1
  }

  /** The fit test: all four target cells hold 0. */
  predicate Vacant(a: array2<int>, cs: seq<Cell>)
    reads a
    requires OnArray(a, cs)
  {
    a[cs[0].0, cs[0].1] == 0 && a[cs[1].0, cs[1].1] == 0 &&
    a[cs[2].0, cs[2].1] == 0 && a[cs[3].0, cs[3].1] == 0
  }

  /** A table placement on the board lies on the array. */
  lemma SquaresOnArray(a: array2<int>, pl: Placement)
    requires InBounds(a.Length0, a.Length1, pl)
    ensures OnArray(a, Squares(pl))
  {
  }

  /**
    * On a board that shows `ps`, the fit test of a placement on the board
    * succeeds exactly when the piece overlaps none of `ps`.
    */
  lemma VacantIffFree(a: array2<int>, ps: seq<Placement>, pl: Placement)
    requires Shows(a, ps) && InBounds(a.Length0, a.Length1, pl)
    ensures OnArray(a, Squares(pl))
    ensures Vacant(a, Squares(pl)) <==> Covered(pl) !! Occupied(ps)
  {
    SquaresOnArray(a, pl);
    var s := Squares(pl);
    assert Covered(pl) == {s[0], s[1], s[2], s[3]};
    LabelZero(ps, s[0]);
    LabelZero(ps, s[1]);
    LabelZero(ps, s[2]);
    LabelZero(ps, s[3]);
  }

  /**
    * The four writes of a placement (value `p`) or of its undo (value 0):
    * the four cells `cs` get `v` and no other cell changes.
    */
  method Paint(a: array2<int>, cs: seq<Cell>, v: int)
    requires OnArray(a, cs)
    modifies a
    ensures forall i, j :: 0 <= i < a.Length0 && 0 <= j < a.Length1 ==>
      a[i, j] == if (i, j) in Cells(cs) then v else old(a[i, j])
  {
    a[cs[0].0, cs[0].1] := v;
    a[cs[1].0, cs[1].1] := v;
    a[cs[2].0, cs[2].1] := v;
    a[cs[3].0, cs[3].1] := v;
  }

  /**
    * Placing: on a board showing `ps`, writing `|ps| + 1` into the cells of
    * a placement on the board gives the board that shows `ps + [pl]`.
    */
  method Place(a: array2<int>, ghost ps: seq<Placement>, pl: Placement, p: int)
    requires Shows(a, ps) && InBounds(a.Length0, a.Length1, pl) && p == |ps| + 1
    modifies a
    ensures Shows(a, ps + [pl])
    ensures forall i, j :: 0 <= i < a.Length0 && 0 <= j < a.Length1 ==>
      a[i, j] == if (i, j) in Covered(pl) then p else old(a[i, j])
  {
    SquaresOnArray(a, pl);
    Paint(a, Squares(pl), p);
    forall i, j | 0 <= i < a.Length0 && 0 <= j < a.Length1
      ensures a[i, j] == Label(ps + [pl], (i, j))
    {
      LabelSnoc(ps, pl, (i, j));
    }
  }

  /**
    * Undoing: on a board showing `ps + [pl]`, where `pl` overlaps none of
    * `ps`, writing 0 back into the cells of `pl` gives the board that shows
    * `ps` again.
    */
  method Unplace(a: array2<int>, ghost ps: seq<Placement>, pl: Placement)
    requires Shows(a, ps + [pl]) && InBounds(a.Length0, a.Length1, pl)
    requires Covered(pl) !! Occupied(ps)
    modifies a
    ensures Shows(a, ps)
  {
    SquaresOnArray(a, pl);
    Paint(a, Squares(pl), 0);
    forall i, j | 0 <= i < a.Length0 && 0 <= j < a.Length1
      ensures a[i, j] == Label(ps, (i, j))
    {
      LabelSnoc(ps, pl, (i, j));
      LabelZero(ps, (i, j));
    }
  }
}
