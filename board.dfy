/**
  * The board routines both solvers share: the flood fill `group`, which
  * marks a region of empty cells with -1 and counts it, `clearGroups`, which
  * turns the marks back into empty cells, and the pruning test
  * `isStupidConfig` (`isStupid` in the multithreaded solver), which reports
  * whether some region of empty cells has a size that is not a multiple of
  * four.  A board is a rows x cols array of labels: 0 for an empty cell, k
  * for the k-th placed piece, and -1 for a cell the flood fill has visited.
  */
module Board {

  import opened Regions

  /** The label of a cell the flood fill has visited. */
  const MARK: int := -1

  /** `Z` is exactly the set of empty cells of the board. */
  ghost predicate Zeros(a: array2<int>, Z: set<Cell>)
    reads a
  {
    Z <= AllCells(a.Length0, a.Length1) &&
    forall i, j :: 0 <= i < a.Length0 && 0 <= j < a.Length1 ==> (a[i, j] == 0 <==> (i, j) in Z)
  }

  /** No cell carries a flood-fill mark. */
  predicate Unmarked(a: array2<int>)
    reads a
  {
    forall i, j :: 0 <= i < a.Length0 && 0 <= j < a.Length1 ==> a[i, j] != MARK
  }

  /**
    * Flood fill from (y, x) on a board whose empty cells are `Z`: counts the
    * cells of the region of (y, x) and marks each of them.  A cell off the
    * board or not empty counts 0.
    */
  method Group(a: array2<int>, y: int, x: int, ghost Z: set<Cell>) returns (n: int)
    requires Zeros(a, Z)
    modifies a
    ensures n == |Region(Z, (y, x))|
    ensures Zeros(a, Z - Region(Z, (y, x)))
    ensures forall i, j :: 0 <= i < a.Length0 && 0 <= j < a.Length1 ==>
      a[i, j] == old(a[i, j]) || (old(a[i, j]) == 0 && a[i, j] == MARK)
    decreases Z, 0
  {
    if 0 <= y < a.Length0 && 0 <= x < a.Length1 && a[y, x] == 0 {
      a[y, x] := MARK;
      n := Spread(a, y, x, Z);
    } else {
      assert (y, x) !in Z;
      assert Region(Z, (y, x)) == {} && Z - Region(Z, (y, x)) == Z;
      n := 0;
    }
  }

  /**
    * The rest of the flood fill once (y, x) is marked: one for (y, x) and the
    * regions of its right, left, lower and upper neighbour, in that order.
    */
  method Spread(a: array2<int>, y: int, x: int, ghost Z: set<Cell>) returns (n: int)
    requires (y, x) in Z && Zeros(a, Z - {(y, x)})
    modifies a
    ensures n == |Region(Z, (y, x))|
    ensures Zeros(a, Z - Region(Z, (y, x)))
    ensures forall i, j :: 0 <= i < a.Length0 && 0 <= j < a.Length1 ==>
      a[i, j] == old(a[i, j]) || (old(a[i, j]) == 0 && a[i, j] == MARK)
    decreases Z - {(y, x)}, 2
  {
    ghost var c := (y, x);
    assert Neighbour(c, 0) == (y, x + 1) && Neighbour(c, 1) == (y, x - 1);
    assert Neighbour(c, 2) == (y + 1, x) && Neighbour(c, 3) == (y - 1, x);
    ghost var Z1 := Z - {c};
    ghost var A1 := Region(Z1, (y, x + 1));
    var n1 := Group(a, y, x + 1, Z1);
    assert n1 == |A1|;
    ghost var A2 := Region(Z1 - A1, (y, x - 1));
    var n2 := Group(a, y, x - 1, Z1 - A1);
    assert n2 == |A2|;
    ghost var W := Z1 - A1 - A2;
    var n34 := SpreadDown(a, y, x, W);
    RegionParts(Z, c, A1, A2, Region(W, (y + 1, x)), Region(W - Region(W, (y + 1, x)), (y - 1, x)));
    n := 1 + n1 + n2 + n34;
  }

  /** The last two steps of `Spread`: the regions of the lower and then the upper neighbour of (y, x). */
  method SpreadDown(a: array2<int>, y: int, x: int, ghost W: set<Cell>) returns (n: int)
    requires Zeros(a, W)
    modifies a
    ensures var A3 := Region(W, (y + 1, x));
      n == |A3| + |Region(W - A3, (y - 1, x))| && Zeros(a, W - A3 - Region(W - A3, (y - 1, x)))
    ensures forall i, j :: 0 <= i < a.Length0 && 0 <= j < a.Length1 ==>
      a[i, j] == old(a[i, j]) || (old(a[i, j]) == 0 && a[i, j] == MARK)
    decreases W, 1
  {
    ghost var A3 := Region(W, (y + 1, x));
    var n3 := Group(a, y + 1, x, W);
    var n4 := Group(a, y - 1, x, W - A3);
    n := n3 + n4;
  }

  /** A new height x width board, every cell set to 0 row by row. */
  method NewBoard(height: int, width: int) returns (a: array2<int>)
    requires height > 0 && width > 0
    ensures fresh(a) && a.Length0 == height && a.Length1 == width
    ensures forall i, j :: 0 <= i < height && 0 <= j < width ==> a[i, j] == 0
  {
    a := new int[height, width];
    var y := 0;
    while y < height
      invariant 0 <= y <= height
      invariant forall i, j :: 0 <= i < y && 0 <= j < width ==> a[i, j] == 0
    {
      var x := 0;
      while x < width
        invariant 0 <= x <= width
        invariant forall i, j :: 0 <= i < y && 0 <= j < width ==> a[i, j] == 0
        invariant forall j :: 0 <= j < x ==> a[y, j] == 0
      {
        a[y, x] := 0;
        x := x + 1;
      }
      y := y + 1;
    }
  }

  /** A new board of the same size holding the same labels, copied row by row. */
  method CopyBoard(b: array2<int>) returns (a: array2<int>)
    ensures fresh(a) && a.Length0 == b.Length0 && a.Length1 == b.Length1
    ensures forall i, j :: 0 <= i < b.Length0 && 0 <= j < b.Length1 ==> a[i, j] == b[i, j]
  {
    a := new int[b.Length0, b.Length1];
    var y := 0;
    while y < b.Length0
      invariant 0 <= y <= b.Length0
      invariant forall i, j :: 0 <= i < y && 0 <= j < b.Length1 ==> a[i, j] == b[i, j]
    {
      var x := 0;
      while x < b.Length1
        invariant 0 <= x <= b.Length1
        invariant forall i, j :: 0 <= i < y && 0 <= j < b.Length1 ==> a[i, j] == b[i, j]
        invariant forall j :: 0 <= j < x ==> a[y, j] == b[y, j]
      {
        a[y, x] := b[y, x];
        x := x + 1;
      }
      y := y + 1;
    }
  }

  /** Turns every flood-fill mark back into an empty cell and leaves every other cell as it was. */
  method ClearGroups(a: array2<int>)
    modifies a
    ensures forall i, j :: 0 <= i < a.Length0 && 0 <= j < a.Length1 ==>
      a[i, j] == if old(a[i, j]) == MARK then 0 else old(a[i, j])
  {
    var y := 0;
    while y < a.Length0
      invariant 0 <= y <= a.Length0
      invariant forall i, j :: 0 <= i < a.Length0 && 0 <= j < a.Length1 ==>
        a[i, j] == if i < y && old(a[i, j]) == MARK then 0 else old(a[i, j])
    {
      var x := 0;
      while x < a.Length1
        invariant 0 <= x <= a.Length1
        invariant forall i, j :: 0 <= i < a.Length0 && 0 <= j < a.Length1 ==>
          a[i, j] == if (i < y || (i == y && j < x)) && old(a[i, j]) == MARK then 0 else old(a[i, j])
      {
        if a[y, x] == MARK {
          a[y, x] := 0;
        }
        x := x + 1;
      }
      y := y + 1;
    }
  }

  /** `U` is a closed part of `Z` made of whole regions whose sizes are multiples of four. */
  ghost predicate GoodPart(U: set<Cell>, Z: set<Cell>)
  {
    U <= Z && ClosedIn(U, Z) && forall u {:trigger Region(Z, u)} :: u in U ==> |Region(Z, u)| % 4 == 0
  }

  /** Adding the region of a further cell whose size is a multiple of four keeps the part good. */
  lemma GoodRegionsGrow(Z: set<Cell>, U: set<Cell>, c: Cell)
    requires GoodPart(U, Z) && c in Z && |Region(Z, c)| % 4 == 0
    ensures GoodPart(U + Region(Z, c), Z)
  {
    var A := Region(Z, c);
    RegionWithin(Z, c);
    RegionClosed(Z, c);
    ClosedUnion(U, A, Z);
    forall u | u in A
      ensures |Region(Z, u)| % 4 == 0
    {
      RegionOfMember(Z, c, u);
    }
  }

  /**
    * The pruning test: scans the board row by row and flood-fills every
    * empty cell not yet visited; it answers true as soon as a region's size
    * is not a multiple of four, and in every case clears the marks again, so
    * the board is left as it was.
    */
  method IsStupid(a: array2<int>, ghost Z: set<Cell>) returns (r: bool)
    requires Zeros(a, Z) && Unmarked(a)
    modifies a
    ensures r == HasBadRegion(Z)
    ensures forall i, j :: 0 <= i < a.Length0 && 0 <= j < a.Length1 ==> a[i, j] == old(a[i, j])
  {
    ghost var U: set<Cell> := {};
    var y := 0;
    while y < a.Length0
      invariant 0 <= y <= a.Length0
      invariant GoodPart(U, Z) && Zeros(a, Z - U)
      invariant forall i, j :: 0 <= i < a.Length0 && 0 <= j < a.Length1 ==>
        a[i, j] == old(a[i, j]) || (old(a[i, j]) == 0 && a[i, j] == MARK)
      invariant forall i, j :: 0 <= i < y && 0 <= j < a.Length1 && (i, j) in Z ==> (i, j) in U
    {
      var bad;
      bad, U := ScanRow(a, y, Z, U);
      if bad {
        ClearGroups(a);
        return true;
      }
      y := y + 1;
    }
    assert forall c :: c in Z ==> c in U;
    ClearGroups(a);
    return false;
  }

  /**
    * The inner loop of the pruning test, over row `y`: flood-fills each
    * empty cell of the row not yet visited and stops at the first region
    * whose size is not a multiple of four.  `U` are the cells visited so far.
    */
  method ScanRow(a: array2<int>, y: int, ghost Z: set<Cell>, ghost U: set<Cell>) returns (bad: bool, ghost V: set<Cell>)
    requires 0 <= y < a.Length0
    requires GoodPart(U, Z) && Zeros(a, Z - U)
    requires forall i, j :: 0 <= i < y && 0 <= j < a.Length1 && (i, j) in Z ==> (i, j) in U
    modifies a
    ensures bad ==> HasBadRegion(Z)
    ensures !bad ==> GoodPart(V, Z) && Zeros(a, Z - V)
    ensures !bad ==> forall i, j :: 0 <= i <= y && 0 <= j < a.Length1 && (i, j) in Z ==> (i, j) in V
    ensures forall i, j :: 0 <= i < a.Length0 && 0 <= j < a.Length1 ==>
      a[i, j] == old(a[i, j]) || (old(a[i, j]) == 0 && a[i, j] == MARK)
  {
    V := U;
    var x := 0;
    while x < a.Length1
      invariant 0 <= x <= a.Length1
      invariant GoodPart(V, Z) && Zeros(a, Z - V)
      invariant forall i, j :: 0 <= i < a.Length0 && 0 <= j < a.Length1 ==>
        a[i, j] == old(a[i, j]) || (old(a[i, j]) == 0 && a[i, j] == MARK)
      invariant forall i, j :: 0 <= i < y && 0 <= j < a.Length1 && (i, j) in Z ==> (i, j) in V
      invariant forall j :: 0 <= j < x && (y, j) in Z ==> (y, j) in V
    {
      if a[y, x] == 0 {
        ghost var c := (y, x);
        assert c in Z - V;
        RegionAfterRemoval(Z, V, c);
        var g := Group(a, y, x, Z - V);
        if g % 4 != 0 {
          assert c in Z && |Region(Z, c)| % 4 != 0;
          return true, V;
        }
        GoodRegionsGrow(Z, V, c);
        assert Z - V - Region(Z, c) == Z - (V + Region(Z, c));
        V := V + Region(Z, c);
      }
      x := x + 1;
    }
    bad := false;
  }
}
