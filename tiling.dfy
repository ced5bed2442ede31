/**
  * The puzzle both solvers search: place every piece of the bag, in bag
  * order, on a rows x cols board so that no two pieces overlap.  A list of
  * placements is the abstract state behind a board array: the k-th placement
  * is the piece the solvers label `k` on the board.  This module defines
  * legal placement lists, completability, and proves the facts the search
  * relies on: the anchor range of an orientation, that a full placement
  * covers the whole board when the areas agree, and that the region test
  * only prunes states that cannot be completed.
  */
module Tiling {

  import opened Shapes
  import opened Regions

  /**
    * Piece `kind` in orientation `rot`, whose shape is `shape`, with the
    * top-left corner of its bounding box at (y, x).  The shape travels with
    * the placement so that reasoning about cells never needs the whole table;
    * `Tabled` ties it to the table entry.
    */
  datatype Placement = Placement(kind: Kind, rot: nat, shape: Orientation, y: int, x: int)

  /** The shape is entry `rot` of the orientation table for `kind`. */
  predicate Tabled(pl: Placement)
  {
    pl.rot < |Orientations(pl.kind)| && Orientations(pl.kind)[pl.rot] == pl.shape
  }

  /** The shape is a well-formed tetromino. */
  predicate Shaped(pl: Placement)
  {
    WellFormed(pl.shape)
  }

  /** The shape lists four cells: enough to place it; `Shaped` is what the geometry needs. */
  predicate Four(pl: Placement)
  {
    |pl.shape.cells| == 4
  }

  /** A placement taken from the table has a well-formed shape. */
  lemma TabledShaped(pl: Placement)
    requires Tabled(pl)
    ensures Shaped(pl)
  {
    OrientationWellFormed(pl.kind, pl.rot);
  }

  /** The four offsets `o` translated by (y, x). */
  function Shifted(o: seq<Offset>, y: int, x: int): (s: seq<Cell>)
    requires |o| == 4
    ensures |s| == 4 && forall i :: 0 <= i < 4 ==> s[i] == (y + o[i].0, x + o[i].1)
  {
    [(y + o[0].0, x + o[0].1), (y + o[1].0, x + o[1].1), (y + o[2].0, x + o[2].1), (y + o[3].0, x + o[3].1)]
  }

  /** The four board cells a placement covers, in the order the fit test reads them. */
  function Squares(pl: Placement): (cs: seq<Cell>)
    requires Four(pl)
    ensures |cs| == 4
  {
    Shifted(pl.shape.cells, pl.y, pl.x)
  }

  /** The set of cells a placement covers (none for a malformed shape). */
  function Covered(pl: Placement): set<Cell>
  {
    if Four(pl) then Cells(Squares(pl)) else {}
  }

  /** A cell of the rows x cols board. */
  predicate OnBoard(R: int, C: int, c: Cell)
  {
    0 <= c.0 < R && 0 <= c.1 < C
  }


  /** The placement lies on the board. */
  predicate InBounds(R: int, C: int, pl: Placement)
  {
    Four(pl) &&
    var s := Squares(pl);
    OnBoard(R, C, s[0]) && OnBoard(R, C, s[1]) && OnBoard(R, C, s[2]) && OnBoard(R, C, s[3])
  }

  /** The cells covered by a list of placements. */
  function Occupied(ps: seq<Placement>): set<Cell>
  {
    if ps == [] then {} else Occupied(ps[..|ps| - 1]) + Covered(ps[|ps| - 1])
  }

  /** The empty cells of the board once `ps` are placed. */
  function Free(R: int, C: int, ps: seq<Placement>): set<Cell>
  {
    AllCells(R, C) - Occupied(ps)
  }

  /** `pl` lies on the board and overlaps none of `ps`: the fit test succeeds. */
  predicate Fits(R: int, C: int, ps: seq<Placement>, pl: Placement)
  {
    InBounds(R, C, pl) && Covered(pl) !! Occupied(ps)
  }

  /** `pl` is the next piece of the bag and fits after `ps`. */
  predicate Legal(R: int, C: int, bag: seq<Kind>, ps: seq<Placement>, pl: Placement)
  {
    |ps| < |bag| && pl.kind == bag[|ps|] && Tabled(pl) && Fits(R, C, ps, pl)
  }

  /** A legal placement is a well-formed piece on the board clear of the earlier ones. */
  lemma LegalShaped(R: int, C: int, bag: seq<Kind>, ps: seq<Placement>, pl: Placement)
    requires Legal(R, C, bag, ps, pl)
    ensures Shaped(pl) && InBounds(R, C, pl) && Covered(pl) !! Occupied(ps)
  {
    TabledShaped(pl);
  }

  /** Every placement of `ps` was legal when it was made. */
  predicate Valid(R: int, C: int, bag: seq<Kind>, ps: seq<Placement>)
  {
    |ps| <= |bag| &&
    forall i {:trigger Legal(R, C, bag, ps[..i], ps[i])} :: 0 <= i < |ps| ==> Legal(R, C, bag, ps[..i], ps[i])
  }

  /** The rest of the bag can still be placed after `ps`. */
  ghost predicate Completable(R: int, C: int, bag: seq<Kind>, ps: seq<Placement>)
  {
    exists ext: seq<Placement> :: Completes(R, C, bag, ps, ext)
  }

  /** Placing `ext` after `ps` is legal and places the whole bag. */
  predicate Completes(R: int, C: int, bag: seq<Kind>, ps: seq<Placement>, ext: seq<Placement>)
  {
    Valid(R, C, bag, ps + ext) && |ps + ext| == |bag|
  }

  /** Pieces that cover four cells each and do not overlap. */
  predicate Packed(qs: seq<Placement>)
    decreases |qs|
  {
    qs == [] || (Packed(qs[..|qs| - 1]) && Shaped(qs[|qs| - 1]) && Covered(qs[|qs| - 1]) !! Occupied(qs[..|qs| - 1]))
  }

  /**
    * The label the solvers write on a cell: the 1-based number of the piece
    * covering it, or 0 for an empty cell.
    */
  function Label(ps: seq<Placement>, c: Cell): (n: nat)
    ensures n <= |ps|
  {
    if ps == [] then 0
    else if c in Covered(ps[|ps| - 1]) then |ps|
    else Label(ps[..|ps| - 1], c)
  }

  // ---------------------------------------------------------------------
  // Shapes placed on the board

  /** A placed piece covers exactly four cells. */
  lemma CoveredSize(pl: Placement)
    requires Shaped(pl)
    ensures |Covered(pl)| == 4
  {
    var s := Squares(pl);
    assert s[0] != s[1] && s[0] != s[2] && s[0] != s[3] && s[1] != s[2] && s[1] != s[3] && s[2] != s[3];
  }

  /**
    * A placement lies on the board exactly when its anchor lies in the range
    * the solvers' loops scan: rows 0 .. rows - height, columns 0 .. cols - width.
    */
  lemma AnchorRange(R: int, C: int, pl: Placement)
    requires Shaped(pl)
    ensures InBounds(R, C, pl) <==>
      0 <= pl.y <= R - pl.shape.height && 0 <= pl.x <= C - pl.shape.width
  {
  }

  /** A piece on the board sits inside a closed part of the empty cells either wholly or not at all. */
  lemma AllOrNothing(pl: Placement, M: set<Cell>, F: set<Cell>)
    requires Shaped(pl) && Covered(pl) <= F && ClosedIn(M, F)
    ensures Covered(pl) <= M || Covered(pl) !! M
  {
    ConnectedAllOrNothing(pl.shape.cells, pl.y, pl.x, M, F);
  }

  /** Closure spreads membership along the edges of a connected shape, so it takes all four squares or none. */
  lemma ConnectedAllOrNothing(o: seq<Offset>, y: int, x: int, M: set<Cell>, F: set<Cell>)
    requires |o| == 4 && Connected(o) && ClosedIn(M, F)
    requires Cells(Shifted(o, y, x)) <= F
    ensures Cells(Shifted(o, y, x)) <= M || Cells(Shifted(o, y, x)) !! M
  {
    var s := Shifted(o, y, x);
    assert s[0] in F && s[1] in F && s[2] in F && s[3] in F;
    forall i, j | 0 <= i < 4 && 0 <= j < 4 && Adjacent(o[i], o[j])
      ensures s[i] in M <==> s[j] in M
    {
      assert Adjacent(s[i], s[j]) && Adjacent(s[j], s[i]);
    }
  }

  // ---------------------------------------------------------------------
  // Sizes

  lemma SubsetSameSize(A: set<Cell>, B: set<Cell>)
    requires A <= B && |A| == |B|
    ensures A == B
  {
    if B - A != {} {
      var b :| b in B - A;
      assert A <= B - {b};
      SubsetSize(A, B - {b});
      assert false;
    }
  }

  lemma SubsetSize(A: set<Cell>, B: set<Cell>)
    requires A <= B
    ensures |A| <= |B| && |B - A| == |B| - |A|
  {
    assert B == A + (B - A);
    assert A * (B - A) == {};
  }

  /** The first `C` cells of row `i`. */
  function Row(i: int, C: int): set<Cell>
  {
    set j | 0 <= j < C :: (i, j)
  }

  lemma {:induction false} RowSize(i: int, C: nat)
    ensures |Row(i, C)| == C
  {
    if C > 0 {
      RowSize(i, C - 1);
      assert Row(i, C) == Row(i, C - 1) + {(i, C - 1)};
    }
  }

  /** The board has rows x cols cells. */
  lemma {:induction false} AllCellsSize(R: nat, C: nat)
    ensures |AllCells(R, C)| == R * C
  {
    if R > 0 {
      AllCellsSize(R - 1, C);
      var row := Row(R - 1, C);
      RowSize(R - 1, C);
      forall c | c in AllCells(R, C)
        ensures c in AllCells(R - 1, C) || c in row
      {
        if c.0 < R - 1 {
          assert c in AllCells(R - 1, C);
        } else {
          assert c in row;
        }
      }
      assert AllCells(R, C) == AllCells(R - 1, C) + row;
      DisjointSize(AllCells(R - 1, C), row);
      RowsTimesCols(R, C);
    }
  }

  lemma RowsTimesCols(R: int, C: int)
    ensures (R - 1) * C + C == R * C
  {
  }

  /** Non-overlapping pieces cover four cells each. */
  lemma {:induction false} PackedSize(qs: seq<Placement>)
    requires Packed(qs)
    ensures |Occupied(qs)| == 4 * |qs|
    decreases |qs|
  {
    if qs != [] {
      var pre, q := qs[..|qs| - 1], qs[|qs| - 1];
      PackedSize(pre);
      CoveredSize(q);
      assert Occupied(pre) * Covered(q) == {};
    }
  }

  // ---------------------------------------------------------------------
  // Legal placement lists

  /** Legal lists grow one legal placement at a time, and only so. */
  lemma ValidSnoc(R: int, C: int, bag: seq<Kind>, ps: seq<Placement>, pl: Placement)
    ensures Valid(R, C, bag, ps + [pl]) <==> Valid(R, C, bag, ps) && Legal(R, C, bag, ps, pl)
  {
    var qs := ps + [pl];
    assert qs[..|ps|] == ps && qs[|ps|] == pl;
    forall i | 0 <= i < |ps|
      ensures qs[..i] == ps[..i] && qs[i] == ps[i]
    {
    }
  }

  /** Every prefix of a legal list is legal. */
  lemma ValidPrefix(R: int, C: int, bag: seq<Kind>, ps: seq<Placement>, n: nat)
    requires Valid(R, C, bag, ps) && n <= |ps|
    ensures Valid(R, C, bag, ps[..n])
  {
    var qs := ps[..n];
    forall i | 0 <= i < n
      ensures Legal(R, C, bag, qs[..i], qs[i])
    {
      assert qs[..i] == ps[..i] && qs[i] == ps[i];
      assert Legal(R, C, bag, ps[..i], ps[i]);
    }
  }

  /** The last placement of a non-empty legal list was legal after the others. */
  lemma ValidLast(R: int, C: int, bag: seq<Kind>, ps: seq<Placement>)
    requires Valid(R, C, bag, ps) && ps != []
    ensures Valid(R, C, bag, ps[..|ps| - 1]) && Legal(R, C, bag, ps[..|ps| - 1], ps[|ps| - 1])
  {
    ValidPrefix(R, C, bag, ps, |ps| - 1);
    assert Legal(R, C, bag, ps[..|ps| - 1], ps[|ps| - 1]);
  }

  /** A legal list lies on the board and does not overlap. */
  lemma {:induction false} ValidPacked(R: int, C: int, bag: seq<Kind>, ps: seq<Placement>)
    requires Valid(R, C, bag, ps)
    ensures Packed(ps) && Occupied(ps) <= AllCells(R, C)
    decreases |ps|
  {
    if ps != [] {
      ValidLast(R, C, bag, ps);
      LegalShaped(R, C, bag, ps[..|ps| - 1], ps[|ps| - 1]);
      ValidPacked(R, C, bag, ps[..|ps| - 1]);
      var s := Squares(ps[|ps| - 1]);
      assert Covered(ps[|ps| - 1]) == {s[0], s[1], s[2], s[3]};
    }
  }

  /** A cell is labelled 0 exactly when no placed piece covers it. */
  lemma {:induction false} LabelZero(ps: seq<Placement>, c: Cell)
    ensures Label(ps, c) == 0 <==> c !in Occupied(ps)
    decreases |ps|
  {
    if ps != [] {
      LabelZero(ps[..|ps| - 1], c);
    }
  }

  /** Placing a well-formed piece that fits (as every legal one does) turns exactly its four cells from empty to occupied. */
  lemma FreeAfter(R: int, C: int, bag: seq<Kind>, ps: seq<Placement>, pl: Placement)
    requires Shaped(pl) && Fits(R, C, ps, pl)
    ensures Occupied(ps + [pl]) == Occupied(ps) + Covered(pl)
    ensures Free(R, C, ps + [pl]) == Free(R, C, ps) - Covered(pl)
    ensures Covered(pl) <= Free(R, C, ps)
    ensures |Free(R, C, ps + [pl])| == |Free(R, C, ps)| - 4
  {
    assert (ps + [pl])[..|ps|] == ps && (ps + [pl])[|ps|] == pl;
    CoveredOnBoard(R, C, pl);
    CoveredSize(pl);
    TakeFour(AllCells(R, C), Occupied(ps), Covered(pl));
  }

  /** Occupying four more cells of a board, all of them empty, removes exactly them from the empty cells. */
  lemma TakeFour(A: set<Cell>, O: set<Cell>, K: set<Cell>)
    requires K <= A && K !! O && |K| == 4
    ensures K <= A - O && A - (O + K) == (A - O) - K && |A - (O + K)| == |A - O| - 4
  {
    SubsetSize(K, A - O);
  }

  /** A piece within the bounds covers cells of the board only. */
  lemma CoveredOnBoard(R: int, C: int, pl: Placement)
    requires InBounds(R, C, pl)
    ensures Covered(pl) <= AllCells(R, C)
  {
    var s := Squares(pl);
    assert Covered(pl) == {s[0], s[1], s[2], s[3]};
  }

  /**
    * The pieces placed after a legal prefix do not overlap one another and
    * cover only cells the prefix left empty.
    */
  lemma {:induction false} SuffixPacked(R: int, C: int, bag: seq<Kind>, ps: seq<Placement>, ext: seq<Placement>)
    requires Valid(R, C, bag, ps + ext)
    ensures Valid(R, C, bag, ps)
    ensures Packed(ext) && Occupied(ext) <= Free(R, C, ps)
    decreases |ext|
  {
    if ext == [] {
      assert ps + ext == ps;
    } else {
      var all := ps + ext;
      var pre, q := ext[..|ext| - 1], ext[|ext| - 1];
      assert all[..|all| - 1] == ps + pre && all[|all| - 1] == q;
      ValidLast(R, C, bag, all);
      LegalShaped(R, C, bag, ps + pre, q);
      SuffixPacked(R, C, bag, ps, pre);
      ValidPacked(R, C, bag, ps + pre);
      OccupiedConcat(ps, pre);
      CoveredOnBoard(R, C, q);
      assert Covered(q) !! Occupied(pre);
    }
  }

  lemma {:induction false} OccupiedConcat(ps: seq<Placement>, qs: seq<Placement>)
    ensures Occupied(ps + qs) == Occupied(ps) + Occupied(qs)
    decreases |qs|
  {
    if qs == [] {
      assert ps + qs == ps;
    } else {
      assert (ps + qs)[..|ps + qs| - 1] == ps + qs[..|qs| - 1];
      OccupiedConcat(ps, qs[..|qs| - 1]);
    }
  }

  /** With areas equal, every legal list leaves exactly four empty cells per piece still to place. */
  lemma FreeSize(R: nat, C: nat, bag: seq<Kind>, ps: seq<Placement>)
    requires 4 * |bag| == R * C && Valid(R, C, bag, ps)
    ensures |Free(R, C, ps)| == 4 * (|bag| - |ps|)
  {
    ValidPacked(R, C, bag, ps);
    PackedSize(ps);
    AllCellsSize(R, C);
    SubsetSize(Occupied(ps), AllCells(R, C));
  }

  // ---------------------------------------------------------------------
  // Completability

  /** A legal list that places the whole bag is complete. */
  lemma FullIsCompletable(R: int, C: int, bag: seq<Kind>, ps: seq<Placement>)
    requires Valid(R, C, bag, ps) && |ps| == |bag|
    ensures Completable(R, C, bag, ps)
  {
    assert ps + [] == ps;
    assert Completes(R, C, bag, ps, []);
  }

  /** A completable state that still has pieces to place has a legal next placement that keeps it completable. */
  lemma FirstPiece(R: int, C: int, bag: seq<Kind>, ps: seq<Placement>) returns (pl: Placement)
    requires Completable(R, C, bag, ps) && |ps| < |bag|
    ensures Valid(R, C, bag, ps) && Legal(R, C, bag, ps, pl) && Completable(R, C, bag, ps + [pl])
  {
    var ext :| Completes(R, C, bag, ps, ext);
    pl := ext[0];
    assert (ps + ext)[..|ps| + 1] == ps + [pl];
    ValidPrefix(R, C, bag, ps + ext, |ps| + 1);
    ValidSnoc(R, C, bag, ps, pl);
    assert ps + [pl] + ext[1..] == ps + ext;
    assert Completes(R, C, bag, ps + [pl], ext[1..]);
  }

  /** A state from which a placement leads to a completable state is itself completable. */
  lemma CompletableBack(R: int, C: int, bag: seq<Kind>, ps: seq<Placement>, pl: Placement)
    requires Completable(R, C, bag, ps + [pl])
    ensures Completable(R, C, bag, ps)
  {
    var ext :| Completes(R, C, bag, ps + [pl], ext);
    var w := [pl] + ext;
    assert ps + [pl] + ext == ps + w;
    assert Completes(R, C, bag, ps, w);
  }

  /**
    * Once the board is full of non-overlapping pieces, every closed part of
    * it is made of whole pieces, so its size is a multiple of four.
    */
  lemma {:induction false} ClosedPartSize(qs: seq<Placement>, M: set<Cell>) returns (n: nat)
    requires Packed(qs) && M <= Occupied(qs) && ClosedIn(M, Occupied(qs))
    ensures |M| == 4 * n
    decreases |qs|
  {
    if qs == [] {
      assert M == {};
      n := 0;
    } else {
      var pre, q := qs[..|qs| - 1], qs[|qs| - 1];
      var F, D := Occupied(qs), Covered(q);
      assert F == Occupied(pre) + D && Occupied(pre) !! D;
      AllOrNothing(q, M, F);
      ClosedMinus(M, F, D);
      assert F - D == Occupied(pre);
      n := ClosedPartSize(pre, M - D);
      CoveredSize(q);
      if D <= M {
        SubsetSize(D, M);
        n := n + 1;
      } else {
        assert M - D == M;
      }
    }
  }

  lemma MultipleOfFour(a: int, n: int)
    requires a == 4 * n
    ensures a % 4 == 0
  {
  }

  /** Removing the same cells from a set and from its surroundings keeps it closed. */
  lemma ClosedMinus(M: set<Cell>, F: set<Cell>, D: set<Cell>)
    requires ClosedIn(M, F)
    ensures ClosedIn(M - D, F - D)
  {
  }

  /**
    * The pruning rule is sound: when the areas agree, a state with an empty
    * region whose size is not a multiple of four cannot be completed.
    */
  lemma PruneSound(R: nat, C: nat, bag: seq<Kind>, ps: seq<Placement>)
    requires 4 * |bag| == R * C && Valid(R, C, bag, ps)
    requires HasBadRegion(Free(R, C, ps))
    ensures !Completable(R, C, bag, ps)
  {
    if Completable(R, C, bag, ps) {
      var ext :| Completes(R, C, bag, ps, ext);
      var F := Free(R, C, ps);
      SuffixPacked(R, C, bag, ps, ext);
      PackedSize(ext);
      FreeSize(R, C, bag, ps);
      SubsetSameSize(Occupied(ext), F);
      var c :| c in F && |Region(F, c)| % 4 != 0;
      RegionWithin(F, c);
      RegionClosed(F, c);
      var n := ClosedPartSize(ext, Region(F, c));
      MultipleOfFour(|Region(F, c)|, n);
      assert false;
    }
  }

  /** When the areas agree, placing the whole bag covers every cell of the board. */
  lemma Coverage(R: nat, C: nat, bag: seq<Kind>, ps: seq<Placement>)
    requires 4 * |bag| == R * C && Valid(R, C, bag, ps) && |ps| == |bag|
    ensures Occupied(ps) == AllCells(R, C)
    ensures forall c :: OnBoard(R, C, c) ==> Label(ps, c) >= 1
  {
    ValidPacked(R, C, bag, ps);
    PackedSize(ps);
    AllCellsSize(R, C);
    SubsetSameSize(Occupied(ps), AllCells(R, C));
    forall c | OnBoard(R, C, c)
      ensures Label(ps, c) >= 1
    {
      assert c in AllCells(R, C);
      LabelZero(ps, c);
    }
  }
}
