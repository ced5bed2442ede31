/**
  * Connected regions of empty cells, as the recursive flood fill `group`
  * of both solvers discovers them.  `Region(Z, c)` follows the flood fill
  * exactly (visit `c`, then its right, left, lower and upper neighbour, each
  * on the cells not yet visited); the lemmas below show that it is the
  * 4-connected component of `c` in `Z`: the least subset of `Z` that holds
  * `c` and is closed under stepping to an adjacent cell of `Z`.
  */
module Regions {

  import opened Shapes

  /** A board cell (row, column). */
  type Cell = (int, int)

  /** Every cell of the rows x cols board. */
  function AllCells(R: int, C: int): (cs: set<Cell>)
    ensures forall c :: c in cs <==> 0 <= c.0 < R && 0 <= c.1 < C
  {
    set i, j | 0 <= i < R && 0 <= j < C :: (i, j)
  }

  /** The k-th neighbour of a cell in the order the flood fill visits them: right, left, down, up. */
  function Neighbour(c: Cell, k: nat): Cell
  {
    if k == 0 then (c.0, c.1 + 1)
    else if k == 1 then (c.0, c.1 - 1)
    else if k == 2 then (c.0 + 1, c.1)
    else (c.0 - 1, c.1)
  }

  /** The neighbours are exactly the adjacent cells. */
  lemma NeighbourAdjacent(c: Cell, d: Cell)
    ensures Adjacent(c, d) <==> exists k :: 0 <= k < 4 && d == Neighbour(c, k)
  {
    if Adjacent(c, d) {
      if d.0 == c.0 {
        if d.1 == c.1 + 1 { assert d == Neighbour(c, 0); } else { assert d == Neighbour(c, 1); }
      } else {
        if d.0 == c.0 + 1 { assert d == Neighbour(c, 2); } else { assert d == Neighbour(c, 3); }
      }
    }
  }

  /** No step from a cell of `M` to an adjacent cell of `Z` leaves `M`. */
  ghost predicate ClosedIn(M: set<Cell>, Z: set<Cell>)
  {
    forall m, n :: m in M && n in Z && Adjacent(m, n) ==> n in M
  }

  /** The cells the flood fill started at `c` visits when `Z` are the empty cells. */
  ghost function Region(Z: set<Cell>, c: Cell): set<Cell>
    decreases Z, 0, 0
  {
    if c !in Z then {} else {c} + Around(Z - {c}, c, 0)
  }

  /**
    * The cells visited by the flood fills started at the neighbours k, k+1,
    * .., 3 of `c` in turn, each on the cells the previous ones left.
    */
  ghost function Around(Z: set<Cell>, c: Cell, k: nat): set<Cell>
    decreases Z, 1, 4 - k
  {
    if k >= 4 then {}
    else
      var A := Region(Z, Neighbour(c, k));
      A + Around(Z - A, c, k + 1)
  }

  /** Some empty region has a size that is not a multiple of four. */
  ghost predicate HasBadRegion(Z: set<Cell>)
  {
    exists c {:trigger Region(Z, c)} :: c in Z && |Region(Z, c)| % 4 != 0
  }

  lemma {:induction false} RegionWithin(Z: set<Cell>, c: Cell)
    ensures Region(Z, c) <= Z
    ensures c in Z <==> c in Region(Z, c)
    decreases Z, 0, 0
  {
    if c in Z {
      AroundWithin(Z - {c}, c, 0);
    }
  }

  lemma {:induction false} AroundWithin(Z: set<Cell>, c: Cell, k: nat)
    ensures Around(Z, c, k) <= Z
    ensures forall j :: k <= j < 4 && Neighbour(c, j) in Z ==> Neighbour(c, j) in Around(Z, c, k)
    decreases Z, 1, 4 - k
  {
    if k < 4 {
      var A := Region(Z, Neighbour(c, k));
      RegionWithin(Z, Neighbour(c, k));
      AroundWithin(Z - A, c, k + 1);
    }
  }

  /** The flood fill never stops at an empty neighbour of a visited cell. */
  lemma {:induction false} RegionClosed(Z: set<Cell>, c: Cell)
    ensures ClosedIn(Region(Z, c), Z)
    decreases Z, 0, 0
  {
    if c in Z {
      var B := Around(Z - {c}, c, 0);
      AroundClosed(Z - {c}, c, 0);
      AroundWithin(Z - {c}, c, 0);
      forall m, n | m in Region(Z, c) && n in Z && Adjacent(m, n)
        ensures n in Region(Z, c)
      {
        if m == c && n != c {
          NeighbourAdjacent(c, n);
        }
      }
    }
  }

  lemma {:induction false} AroundClosed(Z: set<Cell>, c: Cell, k: nat)
    ensures ClosedIn(Around(Z, c, k), Z)
    decreases Z, 1, 4 - k
  {
    if k < 4 {
      var A := Region(Z, Neighbour(c, k));
      RegionClosed(Z, Neighbour(c, k));
      AroundClosed(Z - A, c, k + 1);
    }
  }

  /** A closed part of `Z` stays closed within every subset of `Z`. */
  lemma ClosedInSubset(S: set<Cell>, Z: set<Cell>, Y: set<Cell>)
    requires ClosedIn(S, Z) && Y <= Z
    ensures ClosedIn(S, Y)
  {
  }

  /** Every subset of `Z` that holds `c` and is closed in `Z` holds the whole region. */
  lemma {:induction false} RegionLeast(Z: set<Cell>, c: Cell, S: set<Cell>)
    requires c in Z ==> c in S
    requires ClosedIn(S, Z)
    ensures Region(Z, c) <= S
    decreases Z, 0, 0
  {
    if c in Z {
      ClosedInSubset(S, Z, Z - {c});
      AroundLeast(Z - {c}, c, 0, S);
    }
  }

  lemma {:induction false} AroundLeast(Z: set<Cell>, c: Cell, k: nat, S: set<Cell>)
    requires c in S && ClosedIn(S, Z)
    ensures Around(Z, c, k) <= S
    decreases Z, 1, 4 - k
  {
    if k < 4 {
      var n := Neighbour(c, k);
      var A := Region(Z, n);
      NeighbourAdjacent(c, n);
      if n in Z {
        assert n in S;
      }
      RegionLeast(Z, n, S);
      ClosedInSubset(S, Z, Z - A);
      AroundLeast(Z - A, c, k + 1, S);
    }
  }

  /** Adjacency is symmetric, so a closed set's complement in `Z` cannot step into it. */
  lemma AdjacentSymmetric(a: Cell, b: Cell)
    ensures Adjacent(a, b) <==> Adjacent(b, a)
  {
  }

  /**
    * Removing a closed part `U` of `Z` that does not hold `c` leaves the
    * region of `c` as it was: this is why a scan that keeps earlier regions
    * marked still measures every later region correctly.
    */
  lemma RegionAfterRemoval(Z: set<Cell>, U: set<Cell>, c: Cell)
    requires U <= Z && ClosedIn(U, Z) && c in Z && c !in U
    ensures Region(Z - U, c) == Region(Z, c)
  {
    var R, R' := Region(Z, c), Region(Z - U, c);
    RegionClosed(Z, c);
    RegionWithin(Z, c);
    RegionClosed(Z - U, c);
    RegionWithin(Z - U, c);
    RegionLeast(Z - U, c, R);
    forall m, n | m in R' && n in Z && Adjacent(m, n)
      ensures n in R'
    {
      AdjacentSymmetric(m, n);
    }
    RegionLeast(Z, c, R');
  }

  /** Every cell of a region has that same region. */
  lemma RegionOfMember(Z: set<Cell>, c: Cell, d: Cell)
    requires d in Region(Z, c)
    ensures Region(Z, d) == Region(Z, c)
  {
    var A, B := Region(Z, c), Region(Z, d);
    RegionWithin(Z, c);
    RegionWithin(Z, d);
    RegionClosed(Z, c);
    RegionClosed(Z, d);
    RegionLeast(Z, d, A);
    forall m, n | m in A - B && n in Z && Adjacent(m, n)
      ensures n in A - B
    {
      AdjacentSymmetric(m, n);
    }
    if c !in B {
      RegionLeast(Z, c, A - B);
      assert false;
    }
    RegionLeast(Z, c, B);
  }

  /**
    * One step of the flood fill around `c`: the region of the k-th
    * neighbour, then the rest on what it left.  The two parts do not
    * overlap, so their sizes add up, and the cells left unvisited are the
    * same either way.
    */
  lemma AroundStep(Z: set<Cell>, c: Cell, k: nat, A: set<Cell>)
    requires k < 4 && A == Region(Z, Neighbour(c, k))
    ensures Around(Z, c, k) == A + Around(Z - A, c, k + 1)
    ensures |Around(Z, c, k)| == |A| + |Around(Z - A, c, k + 1)|
    ensures Z - Around(Z, c, k) == (Z - A) - Around(Z - A, c, k + 1)
  {
    AroundWithin(Z - A, c, k + 1);
    DisjointSize(A, Around(Z - A, c, k + 1));
  }

  /** After the fourth neighbour there is nothing left to visit. */
  lemma AroundEnd(Z: set<Cell>, c: Cell)
    ensures Around(Z, c, 4) == {} && Z - Around(Z, c, 4) == Z
  {
  }

  /** The first step of the flood fill: `c` itself, then the flood fills around it. */
  lemma RegionStep(Z: set<Cell>, c: Cell)
    requires c in Z
    ensures Region(Z, c) == {c} + Around(Z - {c}, c, 0)
    ensures |Region(Z, c)| == 1 + |Around(Z - {c}, c, 0)|
    ensures Z - Region(Z, c) == (Z - {c}) - Around(Z - {c}, c, 0)
  {
    AroundWithin(Z - {c}, c, 0);
    DisjointSize({c}, Around(Z - {c}, c, 0));
  }

  /**
    * The whole flood fill from an empty cell `c`: `c` and the regions of its
    * four neighbours, each among the cells not yet visited, add up to the
    * region of `c`, and leave unvisited exactly the cells outside it.
    */
  lemma RegionParts(Z: set<Cell>, c: Cell, A1: set<Cell>, A2: set<Cell>, A3: set<Cell>, A4: set<Cell>)
    requires c in Z
    requires A1 == Region(Z - {c}, Neighbour(c, 0))
    requires A2 == Region(Z - {c} - A1, Neighbour(c, 1))
    requires A3 == Region(Z - {c} - A1 - A2, Neighbour(c, 2))
    requires A4 == Region(Z - {c} - A1 - A2 - A3, Neighbour(c, 3))
    ensures |Region(Z, c)| == 1 + |A1| + |A2| + |A3| + |A4|
    ensures Z - Region(Z, c) == Z - {c} - A1 - A2 - A3 - A4
  {
    var Z1 := Z - {c};
    RegionStep(Z, c);
    AroundStep(Z1, c, 0, A1);
    AroundStep(Z1 - A1, c, 1, A2);
    AroundStep(Z1 - A1 - A2, c, 2, A3);
    AroundStep(Z1 - A1 - A2 - A3, c, 3, A4);
    AroundEnd(Z1 - A1 - A2 - A3 - A4, c);
  }

  lemma DisjointSize(A: set<Cell>, B: set<Cell>)
    requires A !! B
    ensures |A + B| == |A| + |B|
  {
  }

  /** The union of two closed parts of `Z` is closed. */
  lemma ClosedUnion(M: set<Cell>, N: set<Cell>, Z: set<Cell>)
    requires ClosedIn(M, Z) && ClosedIn(N, Z)
    ensures ClosedIn(M + N, Z)
  {
  }
}
