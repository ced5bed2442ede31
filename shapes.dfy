/**
  * The shape catalog: every orientation of every tetromino kind that the
  * two solvers try, in the order they try them.  Both solvers spell the
  * orientations out inline, one copy-pasted block per orientation; here each
  * block becomes one table entry: the four (dy, dx) offsets it tests and
  * fills, measured from the top-left corner of its bounding box, and the
  * bounding box that limits the anchor range of the block's loops.
  */
module Shapes {

  import opened Common

  /** The seven piece kinds. */
  datatype Kind = I | O | T | J | L | S | Z

  /** The character that stands for a kind in the piece bag and in checkpoints. */
  function Letter(k: Kind): (c: char)
    ensures c in "iotjlsz"
  {
    match k
    case I => 'i'
    case O => 'o'
    case T => 't'
    case J => 'j'
    case L => 'l'
    case S => 's'
    case Z => 'z'
  }

  /** The kind a bag character stands for, if any. */
  function KindOf(c: char): (r: Option<Kind>)
    ensures r.Some? <==> c in "iotjlsz"
    ensures r.Some? ==> Letter(r.value) == c
  {
    if c == 'i' then Some(I)
    else if c == 'o' then Some(O)
    else if c == 't' then Some(T)
    else if c == 'j' then Some(J)
    else if c == 'l' then Some(L)
    else if c == 's' then Some(S)
    else if c == 'z' then Some(Z)
    else None
  }

  /** A cell offset (dy, dx): rows down, columns right. */
  type Offset = (int, int)

  /**
    * One orientation: the four offsets it occupies, listed in the order the
    * source's fit test reads them, and its bounding box.
    */
  datatype Orientation = Orientation(cells: seq<Offset>, height: nat, width: nat)

  /** The orientations of each kind, in the order the solvers try them. */
  function Orientations(k: Kind): seq<Orientation>
  {
    match k
    case I => [
      Orientation([(0, 0), (1, 0), (2, 0), (3, 0)], 4, 1),   // vertical
      Orientation([(0, 0), (0, 1), (0, 2), (0, 3)], 1, 4)    // horizontal
    ]
    case O => [
      Orientation([(0, 0), (1, 0), (0, 1), (1, 1)], 2, 2)
    ]
    case T => [
      Orientation([(0, 0), (0, 1), (1, 1), (0, 2)], 2, 3),   // ### / .#.
      Orientation([(0, 0), (1, 0), (1, 1), (2, 0)], 3, 2),   // #. / ## / #.
      Orientation([(0, 1), (1, 0), (1, 1), (2, 1)], 3, 2),   // .# / ## / .#
      Orientation([(1, 0), (0, 1), (1, 1), (1, 2)], 2, 3)    // .#. / ###
    ]
    case J => [
      Orientation([(0, 0), (0, 1), (1, 2), (0, 2)], 2, 3),   // ### / ..#
      Orientation([(1, 0), (0, 0), (1, 1), (1, 2)], 2, 3),   // #.. / ###
      Orientation([(0, 0), (1, 0), (0, 1), (2, 0)], 3, 2),   // ## / #. / #.
      Orientation([(0, 1), (2, 0), (1, 1), (2, 1)], 3, 2)    // .# / .# / ##
    ]
    case L => [
      Orientation([(0, 0), (0, 1), (1, 0), (0, 2)], 2, 3),   // ### / #..
      Orientation([(0, 0), (1, 0), (2, 1), (2, 0)], 3, 2),   // #. / #. / ##
      Orientation([(0, 1), (0, 0), (1, 1), (2, 1)], 3, 2),   // ## / .# / .#
      Orientation([(1, 0), (0, 2), (1, 1), (1, 2)], 2, 3)    // ..# / ###
    ]
    case S => [
      Orientation([(0, 0), (1, 0), (1, 1), (2, 1)], 3, 2),   // #. / ## / .#
      Orientation([(0, 1), (0, 2), (1, 0), (1, 1)], 2, 3)    // .## / ##.
    ]
    case Z => [
      Orientation([(0, 0), (0, 1), (1, 1), (1, 2)], 2, 3),   // ##. / .##
      Orientation([(0, 1), (1, 0), (1, 1), (2, 0)], 3, 2)    // .# / ## / #.
    ]
  }

  /** Two offsets are 4-neighbours. */
  predicate Adjacent(a: Offset, b: Offset)
  {
    (a.0 == b.0 && (a.1 == b.1 + 1 || a.1 + 1 == b.1)) ||
    (a.1 == b.1 && (a.0 == b.0 + 1 || a.0 + 1 == b.0))
  }

  /**
    * Four cells form one 4-connected piece: each of the seven ways to split
    * the four indices into two non-empty parts has an adjacent pair across
    * the split.
    */
  predicate Connected(cs: seq<Offset>)
    requires |cs| == 4
  {
    var e01, e02, e03 := Adjacent(cs[0], cs[1]), Adjacent(cs[0], cs[2]), Adjacent(cs[0], cs[3]);
    var e12, e13, e23 := Adjacent(cs[1], cs[2]), Adjacent(cs[1], cs[3]), Adjacent(cs[2], cs[3]);
    (e01 || e02 || e03) &&          // {0} | {1,2,3}
    (e01 || e12 || e13) &&          // {1} | {0,2,3}
    (e02 || e12 || e23) &&          // {2} | {0,1,3}
    (e03 || e13 || e23) &&          // {3} | {0,1,2}
    (e02 || e03 || e12 || e13) &&   // {0,1} | {2,3}
    (e01 || e03 || e12 || e23) &&   // {0,2} | {1,3}
    (e01 || e02 || e13 || e23)      // {0,3} | {1,2}
  }

  /** The four cells are pairwise different. */
  predicate Distinct(cs: seq<Offset>)
    requires |cs| == 4
  {
    cs[0] != cs[1] && cs[0] != cs[2] && cs[0] != cs[3] &&
    cs[1] != cs[2] && cs[1] != cs[3] && cs[2] != cs[3]
  }

  /** An offset lies inside the bounding box of `o`. */
  predicate InBox(d: Offset, o: Orientation)
  {
    0 <= d.0 < o.height && 0 <= d.1 < o.width
  }

  /** Some of the four cells lies in row `v` of the bounding box. */
  predicate SomeRow(cs: seq<Offset>, v: int)
    requires |cs| == 4
  {
    cs[0].0 == v || cs[1].0 == v || cs[2].0 == v || cs[3].0 == v
  }

  /** Some of the four cells lies in column `v` of the bounding box. */
  predicate SomeCol(cs: seq<Offset>, v: int)
    requires |cs| == 4
  {
    cs[0].1 == v || cs[1].1 == v || cs[2].1 == v || cs[3].1 == v
  }

  /**
    * A well-formed orientation: four distinct cells inside its bounding box,
    * touching all four sides of it (so the box is the tight one), and forming
    * one connected piece.
    */
  predicate WellFormed(o: Orientation)
  {
    |o.cells| == 4 &&
    Distinct(o.cells) &&
    InBox(o.cells[0], o) && InBox(o.cells[1], o) && InBox(o.cells[2], o) && InBox(o.cells[3], o) &&
    SomeRow(o.cells, 0) && SomeRow(o.cells, o.height - 1) &&
    SomeCol(o.cells, 0) && SomeCol(o.cells, o.width - 1) &&
    Connected(o.cells)
  }

  /** A well-formed orientation is at least one cell tall and one cell wide. */
  lemma WellFormedSize(o: Orientation)
    requires WellFormed(o)
    ensures o.height >= 1 && o.width >= 1
  {
    assert InBox(o.cells[0], o);
  }

  /**
    * Every entry of the table is well formed, and the table has the source's
    * orientation counts: I 2, O 1, T 4, J 4, L 4, S 2, Z 2, 19 in all.
    */
  lemma CatalogWellFormed(k: Kind)
    ensures forall a :: 0 <= a < |Orientations(k)| ==> WellFormed(Orientations(k)[a])
    ensures |Orientations(k)| == match k
      case I => 2 case O => 1 case T => 4 case J => 4 case L => 4 case S => 2 case Z => 2
  {
    var os := Orientations(k);
    forall a | 0 <= a < |os| ensures WellFormed(os[a]) {
      OrientationWellFormed(k, a);
    }
  }

  lemma OrientationWellFormed(k: Kind, a: nat)
    requires a < |Orientations(k)|
    ensures WellFormed(Orientations(k)[a])
  {
    match k
    case I => EntriesWellFormedI(a);
    case O => EntriesWellFormedO(a);
    case T => EntriesWellFormedT(a);
    case J => EntriesWellFormedJ(a);
    case L => EntriesWellFormedL(a);
    case S => EntriesWellFormedS(a);
    case Z => EntriesWellFormedZ(a);
  }

  lemma EntriesWellFormedI(a: nat)
    requires a < 2
    ensures WellFormed(Orientations(I)[a])
  {
    // one case per entry of the table
    if a == 0 {
    } else {
    }
  }

  lemma EntriesWellFormedO(a: nat)
    requires a < 1
    ensures WellFormed(Orientations(O)[a])
  {
  }

  lemma EntriesWellFormedT(a: nat)
    requires a < 4
    ensures WellFormed(Orientations(T)[a])
  {
    // one case per entry of the table
    if a == 0 {
    } else if a == 1 {
    } else if a == 2 {
    } else {
    }
  }

  lemma EntriesWellFormedJ(a: nat)
    requires a < 4
    ensures WellFormed(Orientations(J)[a])
  {
    // one case per entry of the table
    if a == 0 {
    } else if a == 1 {
    } else if a == 2 {
    } else {
    }
  }

  lemma EntriesWellFormedL(a: nat)
    requires a < 4
    ensures WellFormed(Orientations(L)[a])
  {
    // one case per entry of the table
    if a == 0 {
    } else if a == 1 {
    } else if a == 2 {
    } else {
    }
  }

  lemma EntriesWellFormedS(a: nat)
    requires a < 2
    ensures WellFormed(Orientations(S)[a])
  {
    // one case per entry of the table
    if a == 0 {
    } else {
    }
  }

  lemma EntriesWellFormedZ(a: nat)
    requires a < 2
    ensures WellFormed(Orientations(Z)[a])
  {
    // one case per entry of the table
    if a == 0 {
    } else {
    }
  }

  /** A quarter turn of four cells: (dy, dx) goes to (-dx, dy). */
  function Turn(cs: seq<Offset>): (r: seq<Offset>)
    requires |cs| == 4
    ensures |r| == 4
  {
    [(-cs[0].1, cs[0].0), (-cs[1].1, cs[1].0), (-cs[2].1, cs[2].0), (-cs[3].1, cs[3].0)]
  }

  function Min4(a: int, b: int, c: int, d: int): int
  {
    var ab := if a <= b then a else b;
    var cd := if c <= d then c else d;
    if ab <= cd then ab else cd
  }

  /** Shift four cells so that their top row and left column are 0. */
  function Normalize(cs: seq<Offset>): (r: seq<Offset>)
    requires |cs| == 4
    ensures |r| == 4
  {
    var dy := Min4(cs[0].0, cs[1].0, cs[2].0, cs[3].0);
    var dx := Min4(cs[0].1, cs[1].1, cs[2].1, cs[3].1);
    [(cs[0].0 - dy, cs[0].1 - dx), (cs[1].0 - dy, cs[1].1 - dx),
     (cs[2].0 - dy, cs[2].1 - dx), (cs[3].0 - dy, cs[3].1 - dx)]
  }

  /** The set of cells a four-cell list occupies. */
  function Cells(cs: seq<Offset>): set<Offset>
    requires |cs| == 4
  {
    {cs[0], cs[1], cs[2], cs[3]}
  }

  /** A quarter turn of the four cells `cs`, shifted back to the origin, occupies the cells `ds`. */
  predicate TurnsInto(cs: seq<Offset>, ds: seq<Offset>)
  {
    |cs| == 4 && |ds| == 4 && Cells(Normalize(Turn(cs))) == Cells(ds)
  }

  /** The entry of the table that entry `a` of kind `k` becomes under a quarter turn. */
  function NextTurn(k: Kind, a: nat): nat
  {
    match k
    case I => (if a < 2 then [1, 0][a] else 0)
    case O => (if a < 1 then [0][a] else 0)
    case T => (if a < 4 then [1, 3, 0, 2][a] else 0)
    case J => (if a < 4 then [2, 3, 1, 0][a] else 0)
    case L => (if a < 4 then [1, 3, 0, 2][a] else 0)
    case S => (if a < 2 then [1, 0][a] else 0)
    case Z => (if a < 2 then [1, 0][a] else 0)
  }

  /**
    * The table is closed under a quarter turn: turning any orientation of a
    * kind gives another orientation of the same kind.
    */
  lemma TurnClosed(k: Kind, a: nat)
    requires a < |Orientations(k)|
    ensures NextTurn(k, a) < |Orientations(k)|
    ensures TurnsInto(Orientations(k)[a].cells, Orientations(k)[NextTurn(k, a)].cells)
  {
    match k
    case I => TurnsOfI(a);
    case O => TurnsOfO(a);
    case T => TurnsOfT(a);
    case J => TurnsOfJ(a);
    case L => TurnsOfL(a);
    case S => TurnsOfS(a);
    case Z => TurnsOfZ(a);
  }

  /**
    * No orientation is listed twice. With `TurnClosed` and the counts of
    * `CatalogWellFormed` (2, 1, 4, 4, 4, 2, 2, the sizes of the rotation
    * orbits of the seven pieces) the table holds every rotation of each
    * piece exactly once and no reflection.
    */
  lemma EntriesDiffer(k: Kind, a: nat, b: nat)
    requires a < b < |Orientations(k)|
    ensures |Orientations(k)[a].cells| == 4 && |Orientations(k)[b].cells| == 4
    ensures Cells(Orientations(k)[a].cells) != Cells(Orientations(k)[b].cells)
  {
    match k
    case I => DistinctEntriesI();
    case O => // a single orientation: no pair to compare
    case T => DistinctEntriesT();
    case J => DistinctEntriesJ();
    case L => DistinctEntriesL();
    case S => DistinctEntriesS();
    case Z => DistinctEntriesZ();
  }

  lemma TurnsOfI(a: nat)
    requires a < 2
    ensures NextTurn(I, a) < 2
    ensures TurnsInto(Orientations(I)[a].cells, Orientations(I)[NextTurn(I, a)].cells)
  {
    var os := Orientations(I);
    assert Normalize(Turn(os[0].cells)) == [(0, 0), (0, 1), (0, 2), (0, 3)] by {
      assert os[0].cells == [(0, 0), (1, 0), (2, 0), (3, 0)];
    }
    assert Normalize(Turn(os[1].cells)) == [(3, 0), (2, 0), (1, 0), (0, 0)] by {
      assert os[1].cells == [(0, 0), (0, 1), (0, 2), (0, 3)];
    }
    // one case per entry of the table
    if a == 0 {
    } else {
    }
  }

  lemma DistinctEntriesI()
    ensures |Orientations(I)[0].cells| == 4
    ensures |Orientations(I)[1].cells| == 4
    ensures Cells(Orientations(I)[0].cells) != Cells(Orientations(I)[1].cells)
  {
    var os := Orientations(I);
    assert (1, 0) in Cells(os[0].cells) && (1, 0) !in Cells(os[1].cells);
  }

  lemma TurnsOfO(a: nat)
    requires a < 1
    ensures NextTurn(O, a) < 1
    ensures TurnsInto(Orientations(O)[a].cells, Orientations(O)[NextTurn(O, a)].cells)
  {
    var os := Orientations(O);
    assert Normalize(Turn(os[0].cells)) == [(1, 0), (1, 1), (0, 0), (0, 1)] by {
      assert os[0].cells == [(0, 0), (1, 0), (0, 1), (1, 1)];
    }
  }

  lemma TurnsOfT(a: nat)
    requires a < 4
    ensures NextTurn(T, a) < 4
    ensures TurnsInto(Orientations(T)[a].cells, Orientations(T)[NextTurn(T, a)].cells)
  {
    var os := Orientations(T);
    assert Normalize(Turn(os[0].cells)) == [(2, 0), (1, 0), (1, 1), (0, 0)] by {
      assert os[0].cells == [(0, 0), (0, 1), (1, 1), (0, 2)];
    }
    assert Normalize(Turn(os[1].cells)) == [(1, 0), (1, 1), (0, 1), (1, 2)] by {
      assert os[1].cells == [(0, 0), (1, 0), (1, 1), (2, 0)];
    }
    assert Normalize(Turn(os[2].cells)) == [(0, 0), (1, 1), (0, 1), (0, 2)] by {
      assert os[2].cells == [(0, 1), (1, 0), (1, 1), (2, 1)];
    }
    assert Normalize(Turn(os[3].cells)) == [(2, 1), (1, 0), (1, 1), (0, 1)] by {
      assert os[3].cells == [(1, 0), (0, 1), (1, 1), (1, 2)];
    }
    // one case per entry of the table
    if a == 0 {
    } else if a == 1 {
    } else if a == 2 {
    } else {
    }
  }

  lemma DistinctEntriesT()
    ensures |Orientations(T)[0].cells| == 4
    ensures |Orientations(T)[1].cells| == 4
    ensures |Orientations(T)[2].cells| == 4
    ensures |Orientations(T)[3].cells| == 4
    ensures Cells(Orientations(T)[0].cells) != Cells(Orientations(T)[1].cells)
    ensures Cells(Orientations(T)[0].cells) != Cells(Orientations(T)[2].cells)
    ensures Cells(Orientations(T)[0].cells) != Cells(Orientations(T)[3].cells)
    ensures Cells(Orientations(T)[1].cells) != Cells(Orientations(T)[2].cells)
    ensures Cells(Orientations(T)[1].cells) != Cells(Orientations(T)[3].cells)
    ensures Cells(Orientations(T)[2].cells) != Cells(Orientations(T)[3].cells)
  {
    var os := Orientations(T);
    assert (0, 1) in Cells(os[0].cells) && (0, 1) !in Cells(os[1].cells);
    assert (0, 0) in Cells(os[0].cells) && (0, 0) !in Cells(os[2].cells);
    assert (0, 0) in Cells(os[0].cells) && (0, 0) !in Cells(os[3].cells);
    assert (0, 0) in Cells(os[1].cells) && (0, 0) !in Cells(os[2].cells);
    assert (0, 0) in Cells(os[1].cells) && (0, 0) !in Cells(os[3].cells);
    assert (2, 1) in Cells(os[2].cells) && (2, 1) !in Cells(os[3].cells);
  }

  lemma TurnsOfJ(a: nat)
    requires a < 4
    ensures NextTurn(J, a) < 4
    ensures TurnsInto(Orientations(J)[a].cells, Orientations(J)[NextTurn(J, a)].cells)
  {
    var os := Orientations(J);
    assert Normalize(Turn(os[0].cells)) == [(2, 0), (1, 0), (0, 1), (0, 0)] by {
      assert os[0].cells == [(0, 0), (0, 1), (1, 2), (0, 2)];
    }
    assert Normalize(Turn(os[1].cells)) == [(2, 1), (2, 0), (1, 1), (0, 1)] by {
      assert os[1].cells == [(1, 0), (0, 0), (1, 1), (1, 2)];
    }
    assert Normalize(Turn(os[2].cells)) == [(1, 0), (1, 1), (0, 0), (1, 2)] by {
      assert os[2].cells == [(0, 0), (1, 0), (0, 1), (2, 0)];
    }
    assert Normalize(Turn(os[3].cells)) == [(0, 0), (1, 2), (0, 1), (0, 2)] by {
      assert os[3].cells == [(0, 1), (2, 0), (1, 1), (2, 1)];
    }
    // one case per entry of the table
    if a == 0 {
    } else if a == 1 {
    } else if a == 2 {
    } else {
    }
  }

  lemma DistinctEntriesJ()
    ensures |Orientations(J)[0].cells| == 4
    ensures |Orientations(J)[1].cells| == 4
    ensures |Orientations(J)[2].cells| == 4
    ensures |Orientations(J)[3].cells| == 4
    ensures Cells(Orientations(J)[0].cells) != Cells(Orientations(J)[1].cells)
    ensures Cells(Orientations(J)[0].cells) != Cells(Orientations(J)[2].cells)
    ensures Cells(Orientations(J)[0].cells) != Cells(Orientations(J)[3].cells)
    ensures Cells(Orientations(J)[1].cells) != Cells(Orientations(J)[2].cells)
    ensures Cells(Orientations(J)[1].cells) != Cells(Orientations(J)[3].cells)
    ensures Cells(Orientations(J)[2].cells) != Cells(Orientations(J)[3].cells)
  {
    var os := Orientations(J);
    assert (0, 1) in Cells(os[0].cells) && (0, 1) !in Cells(os[1].cells);
    assert (1, 2) in Cells(os[0].cells) && (1, 2) !in Cells(os[2].cells);
    assert (0, 0) in Cells(os[0].cells) && (0, 0) !in Cells(os[3].cells);
    assert (1, 1) in Cells(os[1].cells) && (1, 1) !in Cells(os[2].cells);
    assert (1, 0) in Cells(os[1].cells) && (1, 0) !in Cells(os[3].cells);
    assert (0, 0) in Cells(os[2].cells) && (0, 0) !in Cells(os[3].cells);
  }

  lemma TurnsOfL(a: nat)
    requires a < 4
    ensures NextTurn(L, a) < 4
    ensures TurnsInto(Orientations(L)[a].cells, Orientations(L)[NextTurn(L, a)].cells)
  {
    var os := Orientations(L);
    assert Normalize(Turn(os[0].cells)) == [(2, 0), (1, 0), (2, 1), (0, 0)] by {
      assert os[0].cells == [(0, 0), (0, 1), (1, 0), (0, 2)];
    }
    assert Normalize(Turn(os[1].cells)) == [(1, 0), (1, 1), (0, 2), (1, 2)] by {
      assert os[1].cells == [(0, 0), (1, 0), (2, 1), (2, 0)];
    }
    assert Normalize(Turn(os[2].cells)) == [(0, 0), (1, 0), (0, 1), (0, 2)] by {
      assert os[2].cells == [(0, 1), (0, 0), (1, 1), (2, 1)];
    }
    assert Normalize(Turn(os[3].cells)) == [(2, 1), (0, 0), (1, 1), (0, 1)] by {
      assert os[3].cells == [(1, 0), (0, 2), (1, 1), (1, 2)];
    }
    // one case per entry of the table
    if a == 0 {
    } else if a == 1 {
    } else if a == 2 {
    } else {
    }
  }

  lemma DistinctEntriesL()
    ensures |Orientations(L)[0].cells| == 4
    ensures |Orientations(L)[1].cells| == 4
    ensures |Orientations(L)[2].cells| == 4
    ensures |Orientations(L)[3].cells| == 4
    ensures Cells(Orientations(L)[0].cells) != Cells(Orientations(L)[1].cells)
    ensures Cells(Orientations(L)[0].cells) != Cells(Orientations(L)[2].cells)
    ensures Cells(Orientations(L)[0].cells) != Cells(Orientations(L)[3].cells)
    ensures Cells(Orientations(L)[1].cells) != Cells(Orientations(L)[2].cells)
    ensures Cells(Orientations(L)[1].cells) != Cells(Orientations(L)[3].cells)
    ensures Cells(Orientations(L)[2].cells) != Cells(Orientations(L)[3].cells)
  {
    var os := Orientations(L);
    assert (0, 1) in Cells(os[0].cells) && (0, 1) !in Cells(os[1].cells);
    assert (1, 0) in Cells(os[0].cells) && (1, 0) !in Cells(os[2].cells);
    assert (0, 0) in Cells(os[0].cells) && (0, 0) !in Cells(os[3].cells);
    assert (1, 0) in Cells(os[1].cells) && (1, 0) !in Cells(os[2].cells);
    assert (0, 0) in Cells(os[1].cells) && (0, 0) !in Cells(os[3].cells);
    assert (0, 1) in Cells(os[2].cells) && (0, 1) !in Cells(os[3].cells);
  }

  lemma TurnsOfS(a: nat)
    requires a < 2
    ensures NextTurn(S, a) < 2
    ensures TurnsInto(Orientations(S)[a].cells, Orientations(S)[NextTurn(S, a)].cells)
  {
    var os := Orientations(S);
    assert Normalize(Turn(os[0].cells)) == [(1, 0), (1, 1), (0, 1), (0, 2)] by {
      assert os[0].cells == [(0, 0), (1, 0), (1, 1), (2, 1)];
    }
    assert Normalize(Turn(os[1].cells)) == [(1, 0), (0, 0), (2, 1), (1, 1)] by {
      assert os[1].cells == [(0, 1), (0, 2), (1, 0), (1, 1)];
    }
    // one case per entry of the table
    if a == 0 {
    } else {
    }
  }

  lemma DistinctEntriesS()
    ensures |Orientations(S)[0].cells| == 4
    ensures |Orientations(S)[1].cells| == 4
    ensures Cells(Orientations(S)[0].cells) != Cells(Orientations(S)[1].cells)
  {
    var os := Orientations(S);
    assert (0, 0) in Cells(os[0].cells) && (0, 0) !in Cells(os[1].cells);
  }

  lemma TurnsOfZ(a: nat)
    requires a < 2
    ensures NextTurn(Z, a) < 2
    ensures TurnsInto(Orientations(Z)[a].cells, Orientations(Z)[NextTurn(Z, a)].cells)
  {
    var os := Orientations(Z);
    assert Normalize(Turn(os[0].cells)) == [(2, 0), (1, 0), (1, 1), (0, 1)] by {
      assert os[0].cells == [(0, 0), (0, 1), (1, 1), (1, 2)];
    }
    assert Normalize(Turn(os[1].cells)) == [(0, 0), (1, 1), (0, 1), (1, 2)] by {
      assert os[1].cells == [(0, 1), (1, 0), (1, 1), (2, 0)];
    }
    // one case per entry of the table
    if a == 0 {
    } else {
    }
  }

  lemma DistinctEntriesZ()
    ensures |Orientations(Z)[0].cells| == 4
    ensures |Orientations(Z)[1].cells| == 4
    ensures Cells(Orientations(Z)[0].cells) != Cells(Orientations(Z)[1].cells)
  {
    var os := Orientations(Z);
    assert (0, 0) in Cells(os[0].cells) && (0, 0) !in Cells(os[1].cells);
  }
}
