/**
  * The checkpoint format of the multithreaded solver (`saveState` /
  * `loadState`), on byte sequences:
  *
  *   MAGIC, rows, cols, the number of pieces, one character per piece,
  *   a status byte (2 impossible, 1 solved, 0 running) followed by the
  *   solution board (status 1) or the number of work units and each unit's
  *   board and piece number (status 0), and MAGIC again.
  *
  * Integers are Java `int`s written big-endian in two's complement, pieces
  * are Java `char`s written as two bytes, boards row by row with no size.
  * Decoding follows `loadState`: every failure is the one error
  * `CorruptCheckpoint`, and the bytes after the closing MAGIC are ignored.
  */
module Checkpoint {

  import opened Common
  import opened Shapes

  /** A byte of the stream, read as unsigned. */
  type byte = x: int | 0 <= x < 0x100

  const MAGIC: seq<byte> := [0x3e, 0x6d, 0x75, 0x68]

  /** A work unit as saved: its board and the number of its next piece. */
  datatype SavedUnit = SavedUnit(board: seq<seq<int>>, p: int)

  /** What a checkpoint says about the search. */
  datatype Progress =
    | Impossible                     // status 2: solved, no solution
    | Found(board: seq<seq<int>>)    // status 1: solved, with this solution board
    | Running(units: seq<SavedUnit>) // status 0: still searching, with these work units

  /** The contents of a checkpoint. */
  datatype Snapshot = Snapshot(rows: int, cols: int, bag: seq<Kind>, progress: Progress)

  // ---------------------------------------------------------------------
  // Integers and characters

  predicate IsInt32(x: int)
  {
    INT32_MIN <= x <= INT32_MAX
  }

  /** `writeInt`: the four bytes of `x` modulo 2^32, high byte first. */
  function IntBytes(x: int): (r: seq<byte>)
    ensures |r| == 4
  {
    var u := x % 0x1_0000_0000;
    [u / 0x100 / 0x100 / 0x100, u / 0x100 / 0x100 % 0x100, u / 0x100 % 0x100, u % 0x100]
  }

  /** `readInt`: the Java `int` whose big-endian two's-complement form is the first four bytes of `b`. */
  function IntOf(b: seq<byte>): (x: int)
    requires |b| >= 4
    ensures IsInt32(x)
  {
    var u := ((b[0] as int * 0x100 + b[1]) * 0x100 + b[2]) * 0x100 + b[3];
    if u <= INT32_MAX then u else u - 0x1_0000_0000
  }

  /** Reading back a written Java `int` gives the same `int`. */
  lemma IntRoundTrip(x: int)
    requires IsInt32(x)
    ensures IntOf(IntBytes(x)) == x
  {
    var u := x % 0x1_0000_0000;
    var u1 := u / 0x100;
    var u2 := u1 / 0x100;
    assert u == u1 * 0x100 + u % 0x100;
    assert u1 == u2 * 0x100 + u1 % 0x100;
    assert u2 == u2 / 0x100 * 0x100 + u2 % 0x100;
    var b := IntBytes(x);
    assert ((b[0] as int * 0x100 + b[1]) * 0x100 + b[2]) * 0x100 + b[3] == u;
    assert x < 0 ==> u == x + 0x1_0000_0000;
  }

  /** Every four bytes are the written form of the `int` they read as. */
  lemma IntCanonical(b: seq<byte>)
    requires |b| >= 4
    ensures IntBytes(IntOf(b)) == b[..4]
  {
    var u := ((b[0] as int * 0x100 + b[1]) * 0x100 + b[2]) * 0x100 + b[3];
    assert 0 <= u < 0x1_0000_0000;
    assert IntOf(b) % 0x1_0000_0000 == u;
  }

  /** The code of the character Java stores for a kind ('i', 'o', 't', 'j', 'l', 's' or 'z'). */
  function Code(k: Kind): byte
  {
    Letter(k) as int
  }

  /** The kind a Java `char` code names: `loadState` accepts the seven piece characters and no other. */
  function KindOfCode(c: int): (r: Option<Kind>)
    ensures r.Some? ==> Code(r.value) == c
    ensures r.None? ==> forall k :: Code(k) != c
  {
    if 0 <= c < 0xD800 then KindOf(c as char) else None
  }

  /** `writeChar`: the two bytes of the character, high byte first. */
  function CharBytes(k: Kind): seq<byte>
  {
    [0, Code(k)]
  }

  /** `readInt` on a stream: the value and the rest, or nothing at the end of the stream. */
  function ReadInt(bs: seq<byte>): Option<(int, seq<byte>)>
  {
    if |bs| < 4 then None else Some((IntOf(bs), bs[4..]))
  }

  /** `readChar` and the check of `loadState`: a piece and the rest, or nothing. */
  function ReadChar(bs: seq<byte>): Option<(Kind, seq<byte>)>
  {
    if |bs| < 2 then None
    else match KindOfCode(bs[0] as int * 0x100 + bs[1])
      case None => None
      case Some(k) => Some((k, bs[2..]))
  }

  // ---------------------------------------------------------------------
  // Runs of items

  /** The items `xs` written one after the other by `f`. */
  function Join<T>(f: T -> seq<byte>, xs: seq<T>): seq<byte>
  {
    if xs == [] then [] else f(xs[0]) + Join(f, xs[1..])
  }

  /** `n` items read one after the other by `item` (none for `n <= 0`), and the rest. */
  function ReadMany<T>(item: seq<byte> -> Option<(T, seq<byte>)>, bs: seq<byte>, n: int): Option<(seq<T>, seq<byte>)>
    decreases n
  {
    if n <= 0 then Some(([], bs))
    else
      var first := item(bs);
      if first.None? then None
      else
        var more := ReadMany(item, first.value.1, n - 1);
        if more.None? then None else Some(([first.value.0] + more.value.0, more.value.1))
  }

  /** The items `xs` put in front of what a read returned; nothing when the read failed. */
  function Prepend<T>(xs: seq<T>, r: Option<(seq<T>, seq<byte>)>): Option<(seq<T>, seq<byte>)>
  {
    if r.None? then None else Some((xs + r.value.0, r.value.1))
  }

  /**
    * Reading one item at a time: after the items `xs`, reading `n` more
    * items is reading the next item and then `n - 1` more, and it fails
    * where the next item cannot be read.
    */
  lemma ReadManyStep<T>(item: seq<byte> -> Option<(T, seq<byte>)>, xs: seq<T>, bs: seq<byte>, n: int)
    requires n > 0
    ensures item(bs).None? ==> Prepend(xs, ReadMany(item, bs, n)) == None
    ensures item(bs).Some? ==>
      Prepend(xs, ReadMany(item, bs, n)) == Prepend(xs + [item(bs).value.0], ReadMany(item, item(bs).value.1, n - 1))
  {
    if item(bs).Some? {
      var more := ReadMany(item, item(bs).value.1, n - 1);
      if more.Some? {
        assert xs + ([item(bs).value.0] + more.value.0) == xs + [item(bs).value.0] + more.value.0;
      }
    }
  }

  /** `ReadManyStep` once the next item is known to read as `x`, leaving `rest` and `k` items to read. */
  lemma ReadManyNext<T>(item: seq<byte> -> Option<(T, seq<byte>)>, xs: seq<T>, bs: seq<byte>, n: int, k: int, x: T, rest: seq<byte>)
    requires n > 0 && k == n - 1 && item(bs) == Some((x, rest))
    ensures Prepend(xs, ReadMany(item, bs, n)) == Prepend(xs + [x], ReadMany(item, rest, k))
  {
    ReadManyStep(item, xs, bs, n);
  }

  /** `ReadManyStep` once the next item is known not to read. */
  lemma ReadManyStop<T>(item: seq<byte> -> Option<(T, seq<byte>)>, xs: seq<T>, bs: seq<byte>, n: int)
    requires n > 0 && item(bs).None?
    ensures Prepend(xs, ReadMany(item, bs, n)) == None
  {
    ReadManyStep(item, xs, bs, n);
  }

  /** Nothing in front changes nothing. */
  lemma PrependNone<T>(r: Option<(seq<T>, seq<byte>)>)
    ensures Prepend([], r) == r
  {
    if r.Some? {
      assert [] + r.value.0 == r.value.0;
    }
  }

  /** Writing `a + b` is writing `a`, then `b`. */
  lemma {:induction false} JoinConcat<T>(f: T -> seq<byte>, a: seq<T>, b: seq<T>)
    ensures Join(f, a + b) == Join(f, a) + Join(f, b)
    decreases |a|
  {
    if a == [] {
      assert a + b == b;
    } else {
      assert (a + b)[1..] == a[1..] + b;
      JoinConcat(f, a[1..], b);
    }
  }

  /** Writing one more item appends its bytes. */
  lemma JoinSnoc<T>(f: T -> seq<byte>, a: seq<T>, x: T)
    ensures Join(f, a + [x]) == Join(f, a) + f(x)
  {
    JoinConcat(f, a, [x]);
    assert [x][1..] == [];
  }

  /** Writing a prefix one item longer appends that item's bytes. */
  lemma JoinPrefix<T>(f: T -> seq<byte>, xs: seq<T>, k: nat)
    requires k < |xs|
    ensures Join(f, xs[..k + 1]) == Join(f, xs[..k]) + f(xs[k])
  {
    assert xs[..k + 1] == xs[..k] + [xs[k]];
    JoinSnoc(f, xs[..k], xs[k]);
  }

  /** When `item` reads back what `f` writes, reading `|xs|` items reads back what `Join` wrote. */
  lemma {:induction false} ReadJoin<T>(item: seq<byte> -> Option<(T, seq<byte>)>, f: T -> seq<byte>, xs: seq<T>, rest: seq<byte>)
    requires forall x, tail :: x in xs ==> item(f(x) + tail) == Some((x, tail))
    ensures ReadMany(item, Join(f, xs) + rest, |xs|) == Some((xs, rest))
    decreases |xs|
  {
    if xs != [] {
      var bs, more := Join(f, xs) + rest, Join(f, xs[1..]) + rest;
      assert bs == f(xs[0]) + more;
      assert xs[0] in xs;
      assert item(bs) == Some((xs[0], more));
      assert forall x :: x in xs[1..] ==> x in xs;
      ReadJoin(item, f, xs[1..], rest);
      ReadManyNext(item, [], bs, |xs|, |xs[1..]|, xs[0], more);
      PrependNone(ReadMany(item, bs, |xs|));
      assert [] + [xs[0]] + xs[1..] == xs;
    } else {
      assert Join(f, xs) + rest == rest;
    }
  }

  /**
    * When every successful read of `item` consumes the bytes `f` writes for
    * its item, a successful `ReadMany` returns `n` items (none for a
    * negative `n`) that `Join` writes as the bytes consumed.
    */
  lemma {:induction false} ReadManyJoin<T>(item: seq<byte> -> Option<(T, seq<byte>)>, f: T -> seq<byte>, bs: seq<byte>, n: int)
    requires forall b :: item(b).Some? ==> b == f(item(b).value.0) + item(b).value.1
    requires ReadMany(item, bs, n).Some?
    ensures |ReadMany(item, bs, n).value.0| == if n <= 0 then 0 else n
    ensures bs == Join(f, ReadMany(item, bs, n).value.0) + ReadMany(item, bs, n).value.1
    decreases n
  {
    if n > 0 {
      var x, rest := item(bs).value.0, item(bs).value.1;
      ReadManyJoin(item, f, rest, n - 1);
      var xs := ReadMany(item, rest, n - 1).value.0;
      assert ([x] + xs)[1..] == xs;
    }
  }

  /** Every item `ReadMany` returns is one `item` returns. */
  lemma {:induction false} ReadManyEach<T>(item: seq<byte> -> Option<(T, seq<byte>)>, P: T -> bool, bs: seq<byte>, n: int)
    requires forall b :: item(b).Some? ==> P(item(b).value.0)
    requires ReadMany(item, bs, n).Some?
    ensures forall x :: x in ReadMany(item, bs, n).value.0 ==> P(x)
    decreases n
  {
    if n > 0 {
      ReadManyEach(item, P, item(bs).value.1, n - 1);
    }
  }

  // ---------------------------------------------------------------------
  // Boards, units and the whole checkpoint

  /** `serializeBoard` on one row: its cells, each as a Java `int`. */
  function RowBytes(row: seq<int>): seq<byte>
  {
    Join(IntBytes, row)
  }

  /** `serializeBoard`: the rows, one after the other; the size is not written. */
  function GridBytes(g: seq<seq<int>>): seq<byte>
  {
    Join(RowBytes, g)
  }

  /** A saved unit: its board, then its piece number. */
  function UnitBytes(u: SavedUnit): seq<byte>
  {
    GridBytes(u.board) + IntBytes(u.p)
  }

  /** The status byte and what follows it. */
  function ProgressBytes(pr: Progress): seq<byte>
  {
    match pr
    case Impossible => [2]
    case Found(g) => [1] + GridBytes(g)
    case Running(us) => [0] + IntBytes(|us|) + Join(UnitBytes, us)
  }

  /** `saveState` up to the closing MAGIC. */
  function Body(s: Snapshot): seq<byte>
  {
    MAGIC + IntBytes(s.rows) + IntBytes(s.cols) + IntBytes(|s.bag|) + Join(CharBytes, s.bag) + ProgressBytes(s.progress)
  }

  /** `saveState`: the checkpoint of `s`. */
  function Encode(s: Snapshot): seq<byte>
  {
    Body(s) + MAGIC
  }

  /** `deserializeBoard` on one row of `cols` cells. */
  function ReadRow(bs: seq<byte>, cols: int): Option<(seq<int>, seq<byte>)>
  {
    ReadMany(ReadInt, bs, cols)
  }

  /** `deserializeBoard` on a `rows` x `cols` board. */
  function ReadGrid(bs: seq<byte>, rows: int, cols: int): Option<(seq<seq<int>>, seq<byte>)>
  {
    ReadMany(RowReader(cols), bs, rows)
  }

  /** The reader of one row of `cols` cells. */
  function RowReader(cols: int): seq<byte> -> Option<(seq<int>, seq<byte>)>
  {
    b => ReadRow(b, cols)
  }

  /** One work unit of a running checkpoint: its board, then its piece number. */
  function ReadUnit(bs: seq<byte>, rows: int, cols: int): Option<(SavedUnit, seq<byte>)>
  {
    match ReadGrid(bs, rows, cols)
    case None => None
    case Some((g, rest)) =>
      match ReadInt(rest)
      case None => None
      case Some((p, tail)) => Some((SavedUnit(g, p), tail))
  }

  /** The reader of one work unit. */
  function UnitReader(rows: int, cols: int): seq<byte> -> Option<(SavedUnit, seq<byte>)>
  {
    b => ReadUnit(b, rows, cols)
  }

  /** The status byte and what follows it; a negative number of units reads none. */
  function ReadProgress(bs: seq<byte>, rows: int, cols: int): Option<(Progress, seq<byte>)>
  {
    if |bs| < 1 then None
    else if bs[0] == 2 then Some((Impossible, bs[1..]))
    else if bs[0] == 1 then
      match ReadGrid(bs[1..], rows, cols)
      case None => None
      case Some((g, rest)) => Some((Found(g), rest))
    else if bs[0] == 0 then
      match ReadInt(bs[1..])
      case None => None
      case Some((n, rest)) =>
        match ReadMany(UnitReader(rows, cols), rest, n)
        case None => None
        case Some((us, tail)) => Some((Running(us), tail))
    else None
  }

  /**
    * `loadState`: the leading MAGIC, positive rows and columns, a positive
    * number of pieces each named by one of the seven characters, a known
    * status with its boards, and the closing MAGIC; anything else is a
    * corrupt checkpoint.
    */
  function Decode(bs: seq<byte>): Result<Snapshot>
  {
    if |bs| < 16 || bs[..4] != MAGIC then Err(CorruptCheckpoint)
    else
      var rows, cols, n := IntOf(bs[4..8]), IntOf(bs[8..12]), IntOf(bs[12..16]);
      if rows < 1 || cols < 1 || n < 1 then Err(CorruptCheckpoint)
      else match ReadMany(ReadChar, bs[16..], n)
        case None => Err(CorruptCheckpoint)
        case Some((bag, rest)) =>
          match ReadProgress(rest, rows, cols)
          case None => Err(CorruptCheckpoint)
          case Some((progress, tail)) =>
            if |tail| < 4 || tail[..4] != MAGIC then Err(CorruptCheckpoint)
            else Ok(Snapshot(rows, cols, bag, progress))
  }

  // ---------------------------------------------------------------------
  // Well-formed checkpoints and the round trip

  /** A `rows` x `cols` board of Java `int`s. */
  predicate GridOk(g: seq<seq<int>>, rows: int, cols: int)
  {
    |g| == rows && forall y :: 0 <= y < |g| ==> |g[y]| == cols && forall x :: 0 <= x < cols ==> IsInt32(g[y][x])
  }

  /** A unit whose board and piece number can be written and read back. */
  predicate SavedOk(u: SavedUnit, rows: int, cols: int)
  {
    GridOk(u.board, rows, cols) && IsInt32(u.p)
  }

  /** The boards of a progress record are `rows` x `cols` boards that can be written and read back. */
  predicate ProgressOk(pr: Progress, rows: int, cols: int)
  {
    match pr
    case Impossible => true
    case Found(g) => GridOk(g, rows, cols)
    case Running(us) => |us| <= INT32_MAX && forall u :: u in us ==> SavedOk(u, rows, cols)
  }

  /**
    * A snapshot `loadState` accepts back: positive dimensions and a
    * non-empty bag that fit a Java `int`, and boards of the right size.
    */
  predicate Loadable(s: Snapshot)
  {
    1 <= s.rows <= INT32_MAX && 1 <= s.cols <= INT32_MAX && 1 <= |s.bag| <= INT32_MAX &&
    ProgressOk(s.progress, s.rows, s.cols)
  }

  lemma ReadIntBytes(x: int, rest: seq<byte>)
    requires IsInt32(x)
    ensures ReadInt(IntBytes(x) + rest) == Some((x, rest))
  {
    IntRoundTrip(x);
    assert (IntBytes(x) + rest)[..4] == IntBytes(x);
    assert (IntBytes(x) + rest)[4..] == rest;
  }

  lemma ReadCharBytes(k: Kind, rest: seq<byte>)
    ensures ReadChar(CharBytes(k) + rest) == Some((k, rest))
  {
    assert (CharBytes(k) + rest)[2..] == rest;
  }

  lemma ReadRowBytes(row: seq<int>, rest: seq<byte>)
    requires forall x :: x in row ==> IsInt32(x)
    ensures ReadRow(RowBytes(row) + rest, |row|) == Some((row, rest))
  {
    forall x, tail | x in row
      ensures ReadInt(IntBytes(x) + tail) == Some((x, tail))
    {
      ReadIntBytes(x, tail);
    }
    ReadJoin(ReadInt, IntBytes, row, rest);
  }

  /** A written board of the right size reads back as itself. */
  lemma ReadGridBytes(g: seq<seq<int>>, rows: int, cols: int, rest: seq<byte>)
    requires GridOk(g, rows, cols)
    ensures ReadGrid(GridBytes(g) + rest, rows, cols) == Some((g, rest))
  {
    var item := RowReader(cols);
    forall row, tail | row in g
      ensures item(RowBytes(row) + tail) == Some((row, tail))
    {
      var y :| 0 <= y < |g| && g[y] == row;
      assert forall x :: x in row ==> IsInt32(x) by {
        forall x | x in row
          ensures IsInt32(x)
        {
          var i :| 0 <= i < |row| && row[i] == x;
          assert IsInt32(g[y][i]);
        }
      }
      ReadRowBytes(row, tail);
    }
    ReadJoin(item, RowBytes, g, rest);
  }

  lemma ReadUnitBytes(u: SavedUnit, rows: int, cols: int, rest: seq<byte>)
    requires SavedOk(u, rows, cols)
    ensures ReadUnit(UnitBytes(u) + rest, rows, cols) == Some((u, rest))
  {
    assert UnitBytes(u) + rest == GridBytes(u.board) + (IntBytes(u.p) + rest);
    ReadGridBytes(u.board, rows, cols, IntBytes(u.p) + rest);
    ReadIntBytes(u.p, rest);
  }

  lemma ReadProgressBytes(s: Snapshot, rest: seq<byte>)
    requires Loadable(s)
    ensures ReadProgress(ProgressBytes(s.progress) + rest, s.rows, s.cols) == Some((s.progress, rest))
  {
    var bs := ProgressBytes(s.progress) + rest;
    match s.progress
    case Impossible =>
      assert bs[1..] == rest;
    case Found(g) =>
      assert bs[1..] == GridBytes(g) + rest;
      ReadGridBytes(g, s.rows, s.cols, rest);
    case Running(us) =>
      var item := UnitReader(s.rows, s.cols);
      assert bs[1..] == IntBytes(|us|) + (Join(UnitBytes, us) + rest);
      ReadIntBytes(|us|, Join(UnitBytes, us) + rest);
      forall v, tail | v in us
        ensures item(UnitBytes(v) + tail) == Some((v, tail))
      {
        ReadUnitBytes(v, s.rows, s.cols, tail);
      }
      ReadJoin(item, UnitBytes, us, rest);
  }

  /** The four 4-byte fields at the head of a stream, and what follows them. */
  lemma Header(a: seq<byte>, b: seq<byte>, c: seq<byte>, d: seq<byte>, e: seq<byte>)
    requires |a| == |b| == |c| == |d| == 4
    ensures var bs := a + b + c + d + e;
      bs[..4] == a && bs[4..8] == b && bs[8..12] == c && bs[12..16] == d && bs[16..] == e
  {
  }

  /**
    * The checkpoint body of a well-formed snapshot, followed by `tail`,
    * loads as that snapshot exactly when `tail` starts with MAGIC.
    */
  lemma DecodeBody(s: Snapshot, tail: seq<byte>)
    requires Loadable(s)
    ensures Decode(Body(s) + tail) == if |tail| >= 4 && tail[..4] == MAGIC then Ok(s) else Err(CorruptCheckpoint)
  {
    var bs := Body(s) + tail;
    var bagBytes := Join(CharBytes, s.bag);
    var after := ProgressBytes(s.progress) + tail;
    assert bs == MAGIC + IntBytes(s.rows) + IntBytes(s.cols) + IntBytes(|s.bag|) + (bagBytes + after);
    Header(MAGIC, IntBytes(s.rows), IntBytes(s.cols), IntBytes(|s.bag|), bagBytes + after);
    IntRoundTrip(s.rows);
    IntRoundTrip(s.cols);
    IntRoundTrip(|s.bag|);
    BagBytesRead(s.bag, after);
    ReadProgressBytes(s, tail);
    DecodeParts(bs, s, after, tail);
  }

  /** The pieces of a bag read back from their bytes. */
  lemma BagBytesRead(bag: seq<Kind>, rest: seq<byte>)
    ensures ReadMany(ReadChar, Join(CharBytes, bag) + rest, |bag|) == Some((bag, rest))
  {
    forall k, rest'
      ensures ReadChar(CharBytes(k) + rest') == Some((k, rest'))
    {
      ReadCharBytes(k, rest');
    }
    ReadJoin(ReadChar, CharBytes, bag, rest);
  }

  /** `loadState` on a stream whose header, bag and progress read as those of `s`. */
  lemma DecodeParts(bs: seq<byte>, s: Snapshot, after: seq<byte>, tail: seq<byte>)
    requires |bs| >= 16 && bs[..4] == MAGIC && 1 <= s.rows && 1 <= s.cols && 1 <= |s.bag|
    requires IntOf(bs[4..8]) == s.rows && IntOf(bs[8..12]) == s.cols && IntOf(bs[12..16]) == |s.bag|
    requires ReadMany(ReadChar, bs[16..], |s.bag|) == Some((s.bag, after))
    requires ReadProgress(after, s.rows, s.cols) == Some((s.progress, tail))
    ensures Decode(bs) == if |tail| >= 4 && tail[..4] == MAGIC then Ok(s) else Err(CorruptCheckpoint)
  {
  }

  /** `loadState` reads back what `saveState` wrote, whatever follows it. */
  lemma DecodeEncode(s: Snapshot, tail: seq<byte>)
    requires Loadable(s)
    ensures Decode(Encode(s) + tail) == Ok(s)
  {
    assert Encode(s) + tail == Body(s) + (MAGIC + tail);
    assert (MAGIC + tail)[..4] == MAGIC;
    DecodeBody(s, MAGIC + tail);
  }

  /**
    * A snapshot whose dimensions or bag `loadState` refuses (a dimension
    * below 1, or no pieces) is written all the same, and its checkpoint
    * does not load.
    */
  lemma SavedRefused(s: Snapshot, tail: seq<byte>)
    requires IsInt32(s.rows) && IsInt32(s.cols) && |s.bag| <= INT32_MAX
    requires s.rows < 1 || s.cols < 1 || s.bag == []
    ensures Decode(Encode(s) + tail) == Err(CorruptCheckpoint)
  {
    var bs := Encode(s) + tail;
    var after := Join(CharBytes, s.bag) + ProgressBytes(s.progress) + MAGIC + tail;
    assert bs == MAGIC + IntBytes(s.rows) + IntBytes(s.cols) + IntBytes(|s.bag|) + after;
    Header(MAGIC, IntBytes(s.rows), IntBytes(s.cols), IntBytes(|s.bag|), after);
    IntRoundTrip(s.rows);
    IntRoundTrip(s.cols);
    IntRoundTrip(|s.bag|);
  }

  // ---------------------------------------------------------------------
  // What loads was written by saveState

  /** A row of `cols` Java `int`s. */
  predicate RowOk(row: seq<int>, cols: int)
  {
    |row| == cols && forall x :: x in row ==> IsInt32(x)
  }

  /** A row read from the stream is `cols` Java `int`s, and the bytes consumed are their written form. */
  lemma RowRead(bs: seq<byte>, cols: int)
    requires 0 <= cols && ReadRow(bs, cols).Some?
    ensures bs == RowBytes(ReadRow(bs, cols).value.0) + ReadRow(bs, cols).value.1
    ensures RowOk(ReadRow(bs, cols).value.0, cols)
  {
    forall b | ReadInt(b).Some?
      ensures b == IntBytes(ReadInt(b).value.0) + ReadInt(b).value.1
    {
      IntCanonical(b);
      assert b == b[..4] + b[4..];
    }
    ReadManyJoin(ReadInt, IntBytes, bs, cols);
    ReadManyEach(ReadInt, IsInt32, bs, cols);
  }

  /** A board read from the stream is a `rows` x `cols` board, and the bytes consumed are its written form. */
  lemma GridRead(bs: seq<byte>, rows: int, cols: int)
    requires 0 <= rows && 0 <= cols && ReadGrid(bs, rows, cols).Some?
    ensures bs == GridBytes(ReadGrid(bs, rows, cols).value.0) + ReadGrid(bs, rows, cols).value.1
    ensures GridOk(ReadGrid(bs, rows, cols).value.0, rows, cols)
  {
    var item := RowReader(cols);
    forall b | item(b).Some?
      ensures b == RowBytes(item(b).value.0) + item(b).value.1 && RowOk(item(b).value.0, cols)
    {
      RowRead(b, cols);
    }
    ReadManyJoin(item, RowBytes, bs, rows);
    var P := row => RowOk(row, cols);
    ReadManyEach(item, P, bs, rows);
    var g := ReadGrid(bs, rows, cols).value.0;
    forall y | 0 <= y < |g|
      ensures |g[y]| == cols && forall x :: 0 <= x < cols ==> IsInt32(g[y][x])
    {
      assert g[y] in g && P(g[y]);
      forall x | 0 <= x < cols
        ensures IsInt32(g[y][x])
      {
        assert g[y][x] in g[y];
      }
    }
  }

  /** A work unit read from the stream can be written back as the bytes consumed. */
  lemma UnitRead(bs: seq<byte>, rows: int, cols: int)
    requires 0 <= rows && 0 <= cols && ReadUnit(bs, rows, cols).Some?
    ensures bs == UnitBytes(ReadUnit(bs, rows, cols).value.0) + ReadUnit(bs, rows, cols).value.1
    ensures SavedOk(ReadUnit(bs, rows, cols).value.0, rows, cols)
  {
    GridRead(bs, rows, cols);
    var rest := ReadGrid(bs, rows, cols).value.1;
    IntCanonical(rest);
    assert rest == rest[..4] + rest[4..];
  }

  /**
    * A status read from the stream has boards of the right size, and the
    * bytes consumed are its written form, except that a negative number of
    * work units reads as none.
    */
  lemma ProgressRead(bs: seq<byte>, rows: int, cols: int)
    requires 0 <= rows && 0 <= cols && ReadProgress(bs, rows, cols).Some?
    ensures var (pr, rest) := ReadProgress(bs, rows, cols).value;
      ProgressOk(pr, rows, cols) && (bs == ProgressBytes(pr) + rest || pr == Running([]))
  {
    var pr := ReadProgress(bs, rows, cols).value.0;
    assert bs == [bs[0]] + bs[1..];
    if bs[0] == 1 {
      GridRead(bs[1..], rows, cols);
    } else if bs[0] == 0 {
      var n := IntOf(bs[1..]);
      var more := bs[1..][4..];
      IntCanonical(bs[1..]);
      assert bs[1..] == bs[1..][..4] + more;
      UnitsRead(more, n, rows, cols);
    }
  }

  /** Work units read from the stream fit the board and are written back as the bytes consumed. */
  lemma UnitsRead(bs: seq<byte>, n: int, rows: int, cols: int)
    requires 0 <= rows && 0 <= cols && ReadMany(UnitReader(rows, cols), bs, n).Some?
    ensures var (us, rest) := ReadMany(UnitReader(rows, cols), bs, n).value;
      |us| == (if n <= 0 then 0 else n) && bs == Join(UnitBytes, us) + rest &&
      forall u :: u in us ==> SavedOk(u, rows, cols)
  {
    var item := UnitReader(rows, cols);
    forall b | item(b).Some?
      ensures b == UnitBytes(item(b).value.0) + item(b).value.1 && SavedOk(item(b).value.0, rows, cols)
    {
      UnitRead(b, rows, cols);
    }
    ReadManyJoin(item, UnitBytes, bs, n);
    var P := u => SavedOk(u, rows, cols);
    ReadManyEach(item, P, bs, n);
  }

  /** The head of an accepted stream is the written form of the three `int`s it reads as. */
  lemma HeaderRead(bs: seq<byte>)
    requires |bs| >= 16 && bs[..4] == MAGIC
    ensures bs == MAGIC + IntBytes(IntOf(bs[4..8])) + IntBytes(IntOf(bs[8..12])) + IntBytes(IntOf(bs[12..16])) + bs[16..]
  {
    IntCanonical(bs[4..8]);
    IntCanonical(bs[8..12]);
    IntCanonical(bs[12..16]);
    assert bs == bs[..4] + bs[4..8] + bs[8..12] + bs[12..16] + bs[16..];
  }

  /** The pieces read from the stream can be written back as the bytes consumed. */
  lemma BagRead(bs: seq<byte>, n: int)
    requires 0 <= n && ReadMany(ReadChar, bs, n).Some?
    ensures |ReadMany(ReadChar, bs, n).value.0| == n
    ensures bs == Join(CharBytes, ReadMany(ReadChar, bs, n).value.0) + ReadMany(ReadChar, bs, n).value.1
  {
    forall b | ReadChar(b).Some?
      ensures b == CharBytes(ReadChar(b).value.0) + ReadChar(b).value.1
    {
      var k := ReadChar(b).value.0;
      assert b[0] as int * 0x100 + b[1] == Code(k);
      assert b == [b[0], b[1]] + b[2..];
    }
    ReadManyJoin(ReadChar, CharBytes, bs, n);
  }

  /**
    * What `loadState` accepts is a well-formed snapshot, and the stream
    * starts with the checkpoint `saveState` writes for it, except that a
    * negative number of work units reads as an empty queue.
    */
  lemma EncodeDecode(bs: seq<byte>)
    requires Decode(bs).Ok?
    ensures Loadable(Decode(bs).value)
    ensures Encode(Decode(bs).value) <= bs || Decode(bs).value.progress == Running([])
  {
    var s := Decode(bs).value;
    var n := IntOf(bs[12..16]);
    HeaderRead(bs);
    BagRead(bs[16..], n);
    var rest := ReadMany(ReadChar, bs[16..], n).value.1;
    ProgressRead(rest, s.rows, s.cols);
    var tail := ReadProgress(rest, s.rows, s.cols).value.1;
    if s.progress != Running([]) {
      Assemble(s, bs, rest, tail);
    }
  }

  /** A stream made of the parts of the checkpoint of `s`, in order, starts with that checkpoint. */
  lemma Assemble(s: Snapshot, bs: seq<byte>, rest: seq<byte>, tail: seq<byte>)
    requires |bs| >= 16 && bs == MAGIC + IntBytes(s.rows) + IntBytes(s.cols) + IntBytes(|s.bag|) + bs[16..]
    requires bs[16..] == Join(CharBytes, s.bag) + rest && rest == ProgressBytes(s.progress) + tail
    requires |tail| >= 4 && tail[..4] == MAGIC
    ensures Encode(s) <= bs
  {
    var head := MAGIC + IntBytes(s.rows) + IntBytes(s.cols) + IntBytes(|s.bag|);
    assert bs == head + bs[16..];
    Regroup(head, Join(CharBytes, s.bag), ProgressBytes(s.progress), MAGIC, tail);
  }

  /** Moving the brackets of a concatenation whose last part starts with `m`. */
  lemma Regroup<T>(head: seq<T>, bag: seq<T>, pr: seq<T>, m: seq<T>, tail: seq<T>)
    requires |tail| >= |m| && tail[..|m|] == m
    ensures head + bag + pr + m <= head + (bag + (pr + tail))
  {
    assert tail == m + tail[|m|..];
    assert head + (bag + (pr + tail)) == head + bag + pr + m + tail[|m|..];
  }
}
