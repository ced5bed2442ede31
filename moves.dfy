/**
  * The placements one expansion of a work unit tries, in the order its
  * loops try them: every entry of the shape table of the piece's kind, and
  * for each entry every anchor row top to bottom and every anchor column
  * left to right.  Two filters over that order describe what the expansion
  * produces: the placements whose fit test succeeds, and among them the
  * ones it stages as children (those after which the region test finds
  * nothing wrong).
  */
module Moves {

  import opened Shapes
  import opened Regions
  import opened Tiling
  import opened Placing

  /** The anchors of row `y` of table entry `rot` (the orientation `o`) left of column `n`, left to right. */
  function RowCands(k: Kind, rot: nat, o: Orientation, y: int, n: int): (cs: seq<Placement>)
    ensures |cs| == if n <= 0 then 0 else n
    decreases n
  {
    if n <= 0 then [] else RowCands(k, rot, o, y, n - 1) + [Placement(k, rot, o, y, n - 1)]
  }

  /** The anchors of table entry `rot` (the orientation `o`) above row `m` on a board of `C` columns, row by row. */
  function BlockCands(k: Kind, rot: nat, o: Orientation, C: int, m: int): seq<Placement>
    decreases m
  {
    if m <= 0 then []
    else BlockCands(k, rot, o, C, m - 1) + RowCands(k, rot, o, m - 1, C - o.width + 1)
  }

  /** The anchors of the first `q` entries of the table `table` of kind `k` on an R x C board, entry by entry. */
  function KindCands(k: Kind, table: seq<Orientation>, R: int, C: int, q: nat): seq<Placement>
    requires q <= |table|
  {
    if q == 0 then []
    else KindCands(k, table, R, C, q - 1) + BlockCands(k, q - 1, table[q - 1], C, R - table[q - 1].height + 1)
  }

  /** Every placement one expansion for a piece of kind `k` tries, in order. */
  function Candidates(k: Kind, R: int, C: int): seq<Placement>
  {
    KindCands(k, Orientations(k), R, C, |Orientations(k)|)
  }

  /** The placements of `cs` whose fit test succeeds after `ps`, in order. */
  function Fitting(ps: seq<Placement>, cs: seq<Placement>): (fs: seq<Placement>)
    ensures |fs| <= |cs|
  {
    if cs == [] then []
    else
      var c := cs[|cs| - 1];
      Fitting(ps, cs[..|cs| - 1]) + if Covered(c) !! Occupied(ps) then [c] else []
  }

  /** The pruning verdict on the board after `ps` and `c`: some empty region has a bad size. */
  ghost predicate Hopeless(R: int, C: int, ps: seq<Placement>, c: Placement)
  {
    HasBadRegion(Free(R, C, ps + [c]))
  }

  /** The placements of `cs` that fit after `ps` and pass the region test, in order: the staged children. */
  ghost function Staged(R: int, C: int, ps: seq<Placement>, cs: seq<Placement>): (ss: seq<Placement>)
    ensures |ss| <= |cs|
  {
    if cs == [] then []
    else
      var c := cs[|cs| - 1];
      Staged(R, C, ps, cs[..|cs| - 1]) + if Covered(c) !! Occupied(ps) && !Hopeless(R, C, ps, c) then [c] else []
  }

  /** Filtering a single candidate keeps it exactly when it passes. */
  lemma SingleCandidate(R: int, C: int, ps: seq<Placement>, c: Placement)
    ensures Fitting(ps, [c]) == if Covered(c) !! Occupied(ps) then [c] else []
    ensures Staged(R, C, ps, [c]) == if Covered(c) !! Occupied(ps) && !Hopeless(R, C, ps, c) then [c] else []
  {
    assert [c][..0] == [];
  }

  /** Filtering a concatenation filters each part. */
  lemma {:induction false} FittingConcat(ps: seq<Placement>, a: seq<Placement>, b: seq<Placement>)
    ensures Fitting(ps, a + b) == Fitting(ps, a) + Fitting(ps, b)
    decreases |b|
  {
    if b != [] {
      var b' := b[..|b| - 1];
      assert (a + b)[..|a + b| - 1] == a + b';
      FittingConcat(ps, a, b');
    } else {
      assert a + b == a;
    }
  }

  lemma {:induction false} StagedConcat(R: int, C: int, ps: seq<Placement>, a: seq<Placement>, b: seq<Placement>)
    ensures Staged(R, C, ps, a + b) == Staged(R, C, ps, a) + Staged(R, C, ps, b)
    decreases |b|
  {
    if b != [] {
      var b' := b[..|b| - 1];
      assert (a + b)[..|a + b| - 1] == a + b';
      StagedConcat(R, C, ps, a, b');
    } else {
      assert a + b == a;
    }
  }

  /** A placement is fitting exactly when it is a candidate whose fit test succeeds. */
  lemma {:induction false} FittingMember(ps: seq<Placement>, cs: seq<Placement>, c: Placement)
    ensures c in Fitting(ps, cs) <==> c in cs && Covered(c) !! Occupied(ps)
    decreases |cs|
  {
    if cs != [] {
      var cs' := cs[..|cs| - 1];
      assert cs == cs' + [cs[|cs| - 1]];
      FittingMember(ps, cs', c);
    }
  }

  /** A placement is staged exactly when it is a candidate that fits and passes the region test. */
  lemma {:induction false} StagedMember(R: int, C: int, ps: seq<Placement>, cs: seq<Placement>, c: Placement)
    ensures c in Staged(R, C, ps, cs) <==> c in cs && Covered(c) !! Occupied(ps) && !Hopeless(R, C, ps, c)
    decreases |cs|
  {
    if cs != [] {
      var cs' := cs[..|cs| - 1];
      assert cs == cs' + [cs[|cs| - 1]];
      StagedMember(R, C, ps, cs', c);
    }
  }

  /** The anchors of a row are the placements of that row and table entry with the column below `n`. */
  lemma {:induction false} RowCandsMember(k: Kind, rot: nat, o: Orientation, y: int, n: int, c: Placement)
    ensures c in RowCands(k, rot, o, y, n) <==> 0 <= c.x < n && c == Placement(k, rot, o, y, c.x)
    decreases n
  {
    if n > 0 {
      RowCandsMember(k, rot, o, y, n - 1, c);
    }
  }

  lemma {:induction false} BlockCandsMember(k: Kind, rot: nat, o: Orientation, C: int, m: int, c: Placement)
    ensures c in BlockCands(k, rot, o, C, m) <==>
      0 <= c.y < m && 0 <= c.x <= C - o.width && c == Placement(k, rot, o, c.y, c.x)
    decreases m
  {
    if m > 0 {
      BlockCandsMember(k, rot, o, C, m - 1, c);
      RowCandsMember(k, rot, o, m - 1, C - o.width + 1, c);
    }
  }

  lemma {:induction false} KindCandsMember(k: Kind, table: seq<Orientation>, R: int, C: int, q: nat, c: Placement)
    requires q <= |table|
    ensures c in KindCands(k, table, R, C, q) <==>
      c.kind == k && c.rot < q && c.shape == table[c.rot] &&
      0 <= c.y <= R - c.shape.height && 0 <= c.x <= C - c.shape.width
    decreases q
  {
    if q > 0 {
      KindCandsMember(k, table, R, C, q - 1, c);
      BlockCandsMember(k, q - 1, table[q - 1], C, R - table[q - 1].height + 1, c);
    }
  }

  /** The anchors of a row left of column `m` come first among those left of column `n`. */
  lemma {:induction false} RowCandsExtend(k: Kind, rot: nat, o: Orientation, y: int, m: int, n: int) returns (rest: seq<Placement>)
    requires m <= n
    ensures RowCands(k, rot, o, y, n) == RowCands(k, rot, o, y, m) + rest
    decreases n
  {
    if n <= m || n <= 0 {
      rest := [];
    } else {
      var r := RowCandsExtend(k, rot, o, y, m, n - 1);
      rest := r + [Placement(k, rot, o, y, n - 1)];
    }
  }

  /** The anchors above row `m` of an orientation block come first among those above row `n`. */
  lemma {:induction false} BlockCandsExtend(k: Kind, rot: nat, o: Orientation, C: int, m: int, n: int) returns (rest: seq<Placement>)
    requires m <= n
    ensures BlockCands(k, rot, o, C, n) == BlockCands(k, rot, o, C, m) + rest
    decreases n
  {
    if n <= m || n <= 0 {
      rest := [];
    } else {
      var r := BlockCandsExtend(k, rot, o, C, m, n - 1);
      rest := r + RowCands(k, rot, o, n - 1, C - o.width + 1);
    }
  }

  /** The anchors of the first `q` table entries come first among those of the first `r`. */
  lemma {:induction false} KindCandsExtend(k: Kind, table: seq<Orientation>, R: int, C: int, q: nat, r: nat) returns (rest: seq<Placement>)
    requires q <= r <= |table|
    ensures KindCands(k, table, R, C, r) == KindCands(k, table, R, C, q) + rest
    decreases r
  {
    if r == q {
      rest := [];
    } else {
      var t := KindCandsExtend(k, table, R, C, q, r - 1);
      rest := t + BlockCands(k, r - 1, table[r - 1], C, R - table[r - 1].height + 1);
    }
  }

  /** An orientation block of a piece at least one column wide has at most `C` anchors per row. */
  lemma {:induction false} BlockCandsCount(k: Kind, rot: nat, o: Orientation, C: nat, m: int)
    requires o.width >= 1
    ensures |BlockCands(k, rot, o, C, m)| <= (if m <= 0 then 0 else m) * C
    decreases m
  {
    if m > 0 {
      BlockCandsCount(k, rot, o, C, m - 1);
      assert (if m - 1 <= 0 then 0 else m - 1) * C == (m - 1) * C;
      assert m * C == (m - 1) * C + C;
    }
  }

  /** The first `q` entries of a table of pieces at least one cell tall and wide have at most `q * R * C` anchors. */
  lemma {:induction false} KindCandsCount(k: Kind, table: seq<Orientation>, R: nat, C: nat, q: nat)
    requires q <= |table|
    requires forall a :: 0 <= a < |table| ==> table[a].height >= 1 && table[a].width >= 1
    ensures |KindCands(k, table, R, C, q)| <= q * (R * C)
    decreases q
  {
    if q > 0 {
      KindCandsCount(k, table, R, C, q - 1);
      var o := table[q - 1];
      var m := R - o.height + 1;
      BlockCandsCount(k, q - 1, o, C, m);
      assert (if m <= 0 then 0 else m) <= R;
      MulLeq(if m <= 0 then 0 else m, R, C);
      assert q * (R * C) == (q - 1) * (R * C) + R * C;
    }
  }

  lemma MulLeq(a: nat, b: nat, c: nat)
    requires a <= b
    ensures a * c <= b * c
  {
  }

  /**
    * A unit has fewer than `4 * R * C + 1` candidates: the bound the
    * termination weight of the multithreaded search is built on.
    */
  lemma CandidatesCount(k: Kind, R: nat, C: nat)
    ensures |Candidates(k, R, C)| <= 4 * (R * C)
  {
    var table := Orientations(k);
    CatalogWellFormed(k);
    forall a | 0 <= a < |table|
      ensures table[a].height >= 1 && table[a].width >= 1
    {
      WellFormedSize(table[a]);
    }
    KindCandsCount(k, table, R, C, |table|);
    MulLeq(|table|, 4, R * C);
  }

  /**
    * The candidates of an expansion are exactly the table placements of the
    * piece's kind that lie on the board: the loops miss no anchor and try
    * nothing off the board.
    */
  lemma CandidatesExact(k: Kind, R: int, C: int, c: Placement)
    ensures c in Candidates(k, R, C) <==> Tabled(c) && c.kind == k && InBounds(R, C, c)
  {
    KindCandsMember(k, Orientations(k), R, C, |Orientations(k)|, c);
    if c.kind == k && Tabled(c) {
      TabledShaped(c);
      AnchorRange(R, C, c);
    }
  }

  /** Every fitting candidate is a legal next placement of the bag. */
  lemma FittingLegal(R: int, C: int, bag: seq<Kind>, ps: seq<Placement>, c: Placement)
    requires |ps| < |bag| && c in Fitting(ps, Candidates(bag[|ps|], R, C))
    ensures Legal(R, C, bag, ps, c)
  {
    FittingMember(ps, Candidates(bag[|ps|], R, C), c);
    CandidatesExact(bag[|ps|], R, C, c);
  }

  /** Every staged child is a legal next placement of the bag. */
  lemma StagedLegal(R: int, C: int, bag: seq<Kind>, ps: seq<Placement>, c: Placement)
    requires |ps| < |bag| && c in Staged(R, C, ps, Candidates(bag[|ps|], R, C))
    ensures Legal(R, C, bag, ps, c) && !Hopeless(R, C, ps, c)
  {
    StagedMember(R, C, ps, Candidates(bag[|ps|], R, C), c);
    CandidatesExact(bag[|ps|], R, C, c);
  }

  /**
    * An expansion loses no solution: from a completable state (when the
    * pieces cover the board exactly) some candidate fits, and some staged
    * child is completable.
    */
  lemma ExpansionComplete(R: nat, C: nat, bag: seq<Kind>, ps: seq<Placement>) returns (c: Placement)
    requires 4 * |bag| == R * C && Completable(R, C, bag, ps) && |ps| < |bag|
    ensures c in Fitting(ps, Candidates(bag[|ps|], R, C))
    ensures c in Staged(R, C, ps, Candidates(bag[|ps|], R, C)) && Completable(R, C, bag, ps + [c])
  {
    var rot, y, x := NextMove(R, C, bag, ps);
    c := At(bag[|ps|], rot, y, x);
    var cs := Candidates(bag[|ps|], R, C);
    assert Legal(R, C, bag, ps, c) && Completable(R, C, bag, ps + [c]);
    CandidatesExact(bag[|ps|], R, C, c);
    FittingMember(ps, cs, c);
    var ext :| Completes(R, C, bag, ps + [c], ext);
    assert (ps + [c] + ext)[..|ps| + 1] == ps + [c];
    ValidPrefix(R, C, bag, ps + [c] + ext, |ps| + 1);
    if Hopeless(R, C, ps, c) {
      PruneSound(R, C, bag, ps + [c]);
    }
    StagedMember(R, C, ps, cs, c);
  }
}
