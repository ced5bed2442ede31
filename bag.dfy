/**
  * The piece bag both solvers build in their constructors: `iBlocks` I
  * pieces, then the O, T, J, L, S and Z pieces, in that order, in an array of
  * exactly the total length.  The multithreaded solver then scrambles the
  * bag with pairwise swaps, and both answer `get?Blocks` by counting the bag.
  */
module Bags {

  import opened Common
  import opened Shapes

  /** The seven piece counts a solver is built from, Java `int`s. */
  datatype Counts = Counts(i: int32, o: int32, t: int32, j: int32, l: int32, s: int32, z: int32)
  {
    /** The count of kind `k`. */
    function Of(k: Kind): int
    {
      match k
      case I => i case O => o case T => t case J => j case L => l case S => s case Z => z
    }

    /** No count is negative: the constructor of the sequential solver demands it. */
    predicate NonNegative()
    {
      i >= 0 && o >= 0 && t >= 0 && j >= 0 && l >= 0 && s >= 0 && z >= 0
    }

    /** The number of pieces, `nPieces` / `nBlocks`, before any 32-bit wrap-around. */
    function Total(): int
    {
      i + o + t + j + l + s + z
    }
  }

  /** The position of a kind in the order the bag lists them. */
  function Rank(k: Kind): nat
  {
    match k
    case I => 0 case O => 1 case T => 2 case J => 3 case L => 4 case S => 5 case Z => 6
  }

  /** `n` copies of `k`. */
  function Repeat(k: Kind, n: nat): (r: seq<Kind>)
    ensures |r| == n
    ensures forall m :: 0 <= m < n ==> r[m] == k
  {
    if n == 0 then [] else Repeat(k, n - 1) + [k]
  }

  /** The bag the constructors build: the runs of I, O, T, J, L, S and Z pieces, in that order. */
  function Bag(c: Counts): seq<Kind>
    requires c.NonNegative()
  {
    Repeat(I, c.i) + Repeat(O, c.o) + Repeat(T, c.t) + Repeat(J, c.j) +
      Repeat(L, c.l) + Repeat(S, c.s) + Repeat(Z, c.z)
  }

  /** The kinds of `b` never decrease in bag order. */
  predicate Ordered(b: seq<Kind>)
  {
    forall m, n :: 0 <= m < n < |b| ==> Rank(b[m]) <= Rank(b[n])
  }

  /** Every kind of `b` comes at or before rank `r` in bag order. */
  predicate AtMost(b: seq<Kind>, r: nat)
  {
    forall m :: 0 <= m < |b| ==> Rank(b[m]) <= r
  }

  /** An ordered prefix of earlier kinds followed by a run of `k` is ordered. */
  lemma ThenRun(prefix: seq<Kind>, k: Kind, n: nat)
    requires Ordered(prefix) && AtMost(prefix, Rank(k))
    ensures Ordered(prefix + Repeat(k, n)) && AtMost(prefix + Repeat(k, n), Rank(k))
  {
    var b := prefix + Repeat(k, n);
    var q := |prefix|;
    forall m, m' | 0 <= m < m' < |b|
      ensures Rank(b[m]) <= Rank(b[m'])
    {
      if q <= m {
        assert b[m] == k && b[m'] == k;
      } else if q <= m' {
        assert b[m] == prefix[m] && b[m'] == k;
      } else {
        assert b[m] == prefix[m] && b[m'] == prefix[m'];
      }
    }
    forall m | 0 <= m < |b|
      ensures Rank(b[m]) <= Rank(k)
    {
      if m < q {
        assert b[m] == prefix[m];
      } else {
        assert b[m] == k;
      }
    }
  }

  /** The bag lists its pieces in kind order: all I, then O, T, J, L, S, Z. */
  lemma BagOrdered(c: Counts)
    requires c.NonNegative()
    ensures Ordered(Bag(c))
  {
    var b: seq<Kind> := [];
    ThenRun(b, I, c.i);
    b := b + Repeat(I, c.i);
    ThenRun(b, O, c.o);
    b := b + Repeat(O, c.o);
    ThenRun(b, T, c.t);
    b := b + Repeat(T, c.t);
    ThenRun(b, J, c.j);
    b := b + Repeat(J, c.j);
    ThenRun(b, L, c.l);
    b := b + Repeat(L, c.l);
    ThenRun(b, S, c.s);
    b := b + Repeat(S, c.s);
    ThenRun(b, Z, c.z);
    b := b + Repeat(Z, c.z);
    assert [] + Repeat(I, c.i) == Repeat(I, c.i);
  }

  lemma {:induction false} RepeatCount(k: Kind, n: nat, k': Kind)
    ensures multiset(Repeat(k, n))[k'] == if k == k' then n else 0
  {
    if n > 0 {
      RepeatCount(k, n - 1, k');
    }
  }

  /** The bag holds each kind exactly as often as its count says. */
  lemma BagCount(c: Counts, k: Kind)
    requires c.NonNegative()
    ensures multiset(Bag(c))[k] == c.Of(k)
  {
    BagSplit(c);
    RepeatCount(I, c.i, k);
    RepeatCount(O, c.o, k);
    RepeatCount(T, c.t, k);
    RepeatCount(J, c.j, k);
    RepeatCount(L, c.l, k);
    RepeatCount(S, c.s, k);
    RepeatCount(Z, c.z, k);
  }

  /** The bag's pieces are the pieces of its seven runs. */
  lemma BagSplit(c: Counts)
    requires c.NonNegative()
    ensures multiset(Bag(c)) == multiset(Repeat(I, c.i)) + multiset(Repeat(O, c.o)) + multiset(Repeat(T, c.t)) +
      multiset(Repeat(J, c.j)) + multiset(Repeat(L, c.l)) + multiset(Repeat(S, c.s)) + multiset(Repeat(Z, c.z))
  {
  }

  /** The bag holds `Total()` pieces. */
  lemma BagLength(c: Counts)
    requires c.NonNegative()
    ensures |Bag(c)| == c.Total()
  {
  }

  /**
    * One of the seven filling loops of the constructors: writes `n` copies of
    * `k` from position `ptr` on and returns the advanced pointer.
    */
  method FillRun(a: array<Kind>, ptr: int, k: Kind, n: int) returns (next: int)
    requires 0 <= ptr && 0 <= n && ptr + n <= a.Length
    modifies a
    ensures next == ptr + n
    ensures a[..next] == old(a[..ptr]) + Repeat(k, n)
    ensures a[next..] == old(a[next..])
  {
    next := ptr;
    var m := 0;
    while m < n
      invariant 0 <= m <= n && next == ptr + m
      invariant a[..next] == old(a[..ptr]) + Repeat(k, m)
      invariant a[next..] == old(a[next..])
    {
      a[next] := k;
      next := next + 1;
      m := m + 1;
    }
  }

  /** Builds the bag array the constructors fill, of length `Total()`, with `FillRun` seven times. */
  method BuildBag(c: Counts) returns (a: array<Kind>)
    requires c.NonNegative()
    ensures fresh(a) && a[..] == Bag(c)
  {
    a := new Kind[c.Total()](_ => I);
    var p := 0;
    p := FillRun(a, p, I, c.i);
    assert a[..p] == Repeat(I, c.i);
    p := FillRun(a, p, O, c.o);
    p := FillRun(a, p, T, c.t);
    p := FillRun(a, p, J, c.j);
    p := FillRun(a, p, L, c.l);
    p := FillRun(a, p, S, c.s);
    p := FillRun(a, p, Z, c.z);
    assert a[..] == a[..p];
  }

  /** `get?Blocks`: the number of pieces of kind `k` in the bag. */
  method CountOf(blocks: seq<Kind>, k: Kind) returns (n: int)
    ensures n == multiset(blocks)[k]
  {
    n := 0;
    var m := 0;
    while m < |blocks|
      invariant 0 <= m <= |blocks|
      invariant n == multiset(blocks[..m])[k]
    {
      assert blocks[..m + 1] == blocks[..m] + [blocks[m]];
      if blocks[m] == k {
        n := n + 1;
      }
      m := m + 1;
    }
    assert blocks[..m] == blocks;
  }

  /** `s` with the entries at `r` and `r2` exchanged. */
  function Swap(s: seq<Kind>, r: int, r2: int): (t: seq<Kind>)
    requires 0 <= r < |s| && 0 <= r2 < |s|
    ensures |t| == |s|
  {
    s[r := s[r2]][r2 := s[r]]
  }

  /** Every swap index lies in the bag. */
  predicate InRange(swaps: seq<(int, int)>, n: int)
  {
    forall m :: 0 <= m < |swaps| ==> 0 <= swaps[m].0 < n && 0 <= swaps[m].1 < n
  }

  /** The bag after the swaps `swaps`, applied first to last. */
  function Scrambled(s: seq<Kind>, swaps: seq<(int, int)>): (t: seq<Kind>)
    requires InRange(swaps, |s|)
    ensures |t| == |s|
    decreases |swaps|
  {
    if swaps == [] then s
    else
      var last := swaps[|swaps| - 1];
      Swap(Scrambled(s, swaps[..|swaps| - 1]), last.0, last.1)
  }

  /** A swap keeps the same pieces. */
  lemma SwapPermutes(s: seq<Kind>, r: int, r2: int)
    requires 0 <= r < |s| && 0 <= r2 < |s|
    ensures multiset(Swap(s, r, r2)) == multiset(s)
  {
    if r != r2 {
      var t := s[r := s[r2]];
      assert multiset(t) == multiset(s) - multiset{s[r]} + multiset{s[r2]};
    }
  }

  /** Scrambling only permutes the bag: the counts of every kind stay the same. */
  lemma {:induction false} ScramblePermutes(s: seq<Kind>, swaps: seq<(int, int)>)
    requires InRange(swaps, |s|)
    ensures multiset(Scrambled(s, swaps)) == multiset(s)
    decreases |swaps|
  {
    if swaps != [] {
      var pre := swaps[..|swaps| - 1];
      assert InRange(pre, |s|);
      ScramblePermutes(s, pre);
      var last := swaps[|swaps| - 1];
      SwapPermutes(Scrambled(s, pre), last.0, last.1);
    }
  }

  /**
    * The scrambling loop of the multithreaded constructor.  Its random
    * indices `(int)(Math.random() * nBlocks)` are the parameter `swaps`, one
    * pair per piece.
    */
  method Scramble(a: array<Kind>, swaps: seq<(int, int)>)
    requires |swaps| == a.Length && InRange(swaps, a.Length)
    modifies a
    ensures a[..] == Scrambled(old(a[..]), swaps)
  {
    var m := 0;
    while m < a.Length
      invariant 0 <= m <= a.Length
      invariant InRange(swaps[..m], a.Length)
      invariant a[..] == Scrambled(old(a[..]), swaps[..m])
    {
      assert swaps[..m + 1][..m] == swaps[..m];
      var r, r2 := swaps[m].0, swaps[m].1;
      var temp := a[r];
      a[r] := a[r2];
      a[r2] := temp;
      m := m + 1;
    }
    assert swaps[..m] == swaps;
  }
}
