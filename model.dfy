/**
  Values, geometry and pure decision tables of the board engine (src/model.rs).

  The field is a staggered triangular tiling: a block's shape alternates with the
  parity of `row + column`, and every block touches exactly twelve others.
  Blocks are stored row-major, block (y, x) at flat index `cols * y + x`.
 */
module Model {
  import opened Wrappers

  datatype BlockStatus = Normal | Open | MarkedMine | MarkedQuestionable

  /** One cell; `cachedNumber` is the memo written by the adjacent-mine query. */
  datatype Block = Block(hasMine: bool, cachedNumber: Option<nat>, status: BlockStatus)

  const DefaultBlock: Block := Block(false, None, BlockStatus.Normal)

  datatype BlockShape = DeltaLike | RevDeltaLike

  datatype GameButtonDisplayKind = Normal | Pushed | Danger | Finished | Died

  datatype BlockDisplayKind =
    | Normal
    | MarkedMine
    | MarkedQuestionable
    | ExplodedMine
    | WrongMarkedMine
    | NotMarkedMine
    | PushMarkedQuestionable
    | OpenWithNumber(n: nat)
    | PushNormal

  /** Timestamps are whole seconds supplied by the caller (the clock is not modelled). */
  datatype BoardStatus =
    | Ready
    | Going(start: int)
    | Finished(start: int, end: int)
    | Died(start: int, end: int)

  predicate IsTerminal(s: BoardStatus) {
    s.Finished? || s.Died?
  }

  /** A signed board coordinate (row, column), as produced by the neighbour offsets. */
  type Pos = (int, int)

  // ---------------------------------------------------------------------------
  // Geometry
  // ---------------------------------------------------------------------------

  /** Blocks whose coordinates sum to an even number point down, the others up. */
  function ShapeOf(y: nat, x: nat): (r: BlockShape)
    ensures r == RevDeltaLike <==> (y + x) % 2 == 0
  {
    if (y + x) % 2 == 0 then RevDeltaLike else DeltaLike
  }

  /** The row across the long edge: below a DeltaLike block, above a RevDeltaLike one. */
  function LongEdgeRow(y: nat, x: nat): int {
    match ShapeOf(y, x)
    case DeltaLike => y + 1
    case RevDeltaLike => y as int - 1
  }

  /** The twelve neighbour positions, unfiltered: out-of-range ones are dropped by the caller. */
  function SurroundingBlocks(y: nat, x: nat): (s: seq<Pos>)
    ensures |s| == 12
  {
    var Y, X, E := y as int, x as int, LongEdgeRow(y, x);
    [ (Y - 1, X - 1), (Y - 1, X), (Y - 1, X + 1), (E, X - 2),
      (Y, X - 2), (Y, X - 1), (Y, X + 1), (Y, X + 2),
      (E, X + 2), (Y + 1, X - 1), (Y + 1, X), (Y + 1, X + 1) ]
  }

  /** Arithmetic description of the neighbourhood: same row within two columns, the rows
      above and below within one column, and two columns away across the long edge. */
  ghost predicate Touches(y: nat, x: nat, q: Pos) {
    var dy, dx := q.0 - y, q.1 - x;
    || (dy == 0 && (dx == -2 || dx == -1 || dx == 1 || dx == 2))
    || ((dy == -1 || dy == 1) && -1 <= dx <= 1)
    || (q.0 == LongEdgeRow(y, x) && (dx == -2 || dx == 2))
  }

  lemma ShapesAlternate(y: nat, x: nat)
    ensures ShapeOf(y, x) == RevDeltaLike <==> (y + x) % 2 == 0
    ensures ShapeOf(y, x) != ShapeOf(y, x + 1)
    ensures ShapeOf(y, x) != ShapeOf(y + 1, x)
  {
  }

  lemma SurroundingBlocksShape(y: nat, x: nat)
    ensures forall i, j :: 0 <= i < j < 12 ==> SurroundingBlocks(y, x)[i] != SurroundingBlocks(y, x)[j]
    ensures (y as int, x as int) !in SurroundingBlocks(y, x)
    ensures SurroundingBlocks(y, x)[3] == (LongEdgeRow(y, x), x - 2)
    ensures SurroundingBlocks(y, x)[8] == (LongEdgeRow(y, x), x + 2)
    ensures ShapeOf(y, x) == DeltaLike ==> LongEdgeRow(y, x) == y + 1
    ensures ShapeOf(y, x) == RevDeltaLike ==> LongEdgeRow(y, x) == y - 1
  {
  }

  lemma SurroundingIsTouches(y: nat, x: nat, q: Pos)
    ensures q in SurroundingBlocks(y, x) <==> Touches(y, x, q)
  {
  }

  /** Touching is symmetric: the long-edge partner of a block has the opposite shape,
      so its own long edge points back. */
  lemma TouchesSymmetric(p: (nat, nat), q: (nat, nat))
    ensures Touches(p.0, p.1, (q.0, q.1)) <==> Touches(q.0, q.1, (p.0, p.1))
  {
    var dy, dx := q.0 - p.0, q.1 - p.1;
    if (dy == 1 || dy == -1) && (dx == 2 || dx == -2) {
      assert q.0 + q.1 == p.0 + p.1 + dy + dx;
      assert ShapeOf(p.0, p.1) != ShapeOf(q.0, q.1);
    }
  }

  lemma SurroundingSymmetric(p: (nat, nat), q: (nat, nat))
    ensures (q.0 as int, q.1 as int) in SurroundingBlocks(p.0, p.1)
        <==> (p.0 as int, p.1 as int) in SurroundingBlocks(q.0, q.1)
  {
    SurroundingIsTouches(p.0, p.1, (q.0, q.1));
    SurroundingIsTouches(q.0, q.1, (p.0, p.1));
    TouchesSymmetric(p, q);
  }

  /** The chord-highlight test of the source, written as its branches read: it holds for
      the block itself and for exactly its twelve neighbours. */
  function IsSurrounding(pos: (nat, nat), check: (nat, nat)): (r: bool)
    ensures r <==> check == pos || (check.0 as int, check.1 as int) in SurroundingBlocks(pos.0, pos.1)
  {
    SurroundingIsTouches(pos.0, pos.1, (check.0, check.1));
    var (y, x) := pos;
    var (cy, cx) := check;
    var shape := ShapeOf(y, x);
    if cy == y || (match shape case DeltaLike => cy == y + 1 case RevDeltaLike => cy + 1 == y) then
      cx + 2 >= x && x + 2 >= cx
    else if (match shape case DeltaLike => cy + 1 == y case RevDeltaLike => cy == y + 1) then
      cx + 1 >= x && x + 1 >= cx
    else
      false
  }

  lemma IsSurroundingSymmetric(pos: (nat, nat), check: (nat, nat))
    ensures IsSurrounding(pos, check) == IsSurrounding(check, pos)
  {
    SurroundingSymmetric(pos, check);
  }

  // ---------------------------------------------------------------------------
  // Flat indexing
  // ---------------------------------------------------------------------------

  predicate InRange(rows: nat, cols: nat, p: Pos) {
    0 <= p.0 < rows && 0 <= p.1 < cols
  }

  lemma IdxBound(rows: nat, cols: nat, y: nat, x: nat)
    requires y < rows && x < cols
    ensures cols * y + x < rows * cols
  {
    assert cols * (y + 1) <= cols * rows by {
      assert cols * rows - cols * (y + 1) == cols * (rows - y - 1);
    }
  }

  function Idx(rows: nat, cols: nat, y: nat, x: nat): (i: nat)
    requires y < rows && x < cols
    ensures i < rows * cols
  {
    IdxBound(rows, cols, y, x);
    cols * y + x
  }

  lemma MulAtLeast(c: nat, k: int)
    requires k >= 1
    ensures c * k >= c
  {
    assert c * k == c + c * (k - 1);
  }

  lemma IdxDivMod(rows: nat, cols: nat, y: nat, x: nat)
    requires y < rows && x < cols
    ensures Idx(rows, cols, y, x) / cols == y && Idx(rows, cols, y, x) % cols == x
  {
    var i := cols * y + x;
    var q, r := i / cols, i % cols;
    assert i == cols * q + r && 0 <= r < cols;
    assert cols * (y - q) == r - x by {
      assert cols * (y - q) == cols * y - cols * q;
    }
    if y > q {
      MulAtLeast(cols, y - q);
    } else if y < q {
      MulAtLeast(cols, q - y);
    }
  }

  // ---------------------------------------------------------------------------
  // Counting
  // ---------------------------------------------------------------------------

  /** Number of blocks in `s` whose status is `st`. */
  function CountStatus(s: seq<Block>, st: BlockStatus): (n: nat)
    ensures n <= |s|
  {
    if s == [] then 0
    else CountStatus(s[..|s| - 1], st) + (if s[|s| - 1].status == st then 1 else 0)
  }

  lemma {:induction false} CountStatusUpdate(s: seq<Block>, i: nat, b: Block, st: BlockStatus)
    requires i < |s|
    ensures CountStatus(s[i := b], st)
         == CountStatus(s, st) - (if s[i].status == st then 1 else 0) + (if b.status == st then 1 else 0)
  {
    var t := s[i := b];
    if i == |s| - 1 {
      assert t[..|t| - 1] == s[..|s| - 1];
    } else {
      assert t[..|t| - 1] == s[..|s| - 1][i := b];
      CountStatusUpdate(s[..|s| - 1], i, b, st);
    }
  }

  lemma {:induction false} CountStatusNone(s: seq<Block>, st: BlockStatus)
    requires forall i :: 0 <= i < |s| ==> s[i].status != st
    ensures CountStatus(s, st) == 0
  {
    if s != [] {
      CountStatusNone(s[..|s| - 1], st);
    }
  }

  lemma CountStatusPositive(s: seq<Block>, i: nat, st: BlockStatus)
    requires i < |s| && s[i].status == st
    ensures CountStatus(s, st) >= 1
  {
    CountStatusUpdate(s, i, s[i].(status := if st == BlockStatus.Open then BlockStatus.Normal else BlockStatus.Open), st);
  }

  /** Mines among the in-range positions of `nbrs`. */
  function MinesAround(rows: nat, cols: nat, blocks: seq<Block>, nbrs: seq<Pos>): (n: nat)
    requires |blocks| == rows * cols
    ensures n <= |nbrs|
  {
    if nbrs == [] then 0
    else
      var p := nbrs[|nbrs| - 1];
      MinesAround(rows, cols, blocks, nbrs[..|nbrs| - 1])
        + (if InRange(rows, cols, p) && blocks[Idx(rows, cols, p.0, p.1)].hasMine then 1 else 0)
  }

  /** Blocks marked as mines among the in-range positions of `nbrs`. */
  function MarkedAround(rows: nat, cols: nat, blocks: seq<Block>, nbrs: seq<Pos>): (n: nat)
    requires |blocks| == rows * cols
    ensures n <= |nbrs|
  {
    if nbrs == [] then 0
    else
      var p := nbrs[|nbrs| - 1];
      MarkedAround(rows, cols, blocks, nbrs[..|nbrs| - 1])
        + (if InRange(rows, cols, p) && blocks[Idx(rows, cols, p.0, p.1)].status == BlockStatus.MarkedMine then 1 else 0)
  }

  /** The in-range positions of `nbrs`, in order, as unsigned coordinates. */
  function InRangeOf(rows: nat, cols: nat, nbrs: seq<Pos>): (r: seq<(nat, nat)>)
    ensures forall p: (nat, nat) :: p in r <==> (p.0 as int, p.1 as int) in nbrs && p.0 < rows && p.1 < cols
  {
    if nbrs == [] then []
    else
      var p := nbrs[|nbrs| - 1];
      InRangeOf(rows, cols, nbrs[..|nbrs| - 1])
        + (if InRange(rows, cols, p) then [(p.0 as nat, p.1 as nat)] else [])
  }

  /** Flat indices of the in-range positions of `nbrs`. */
  ghost function IdxSet(rows: nat, cols: nat, nbrs: seq<Pos>): (r: set<nat>)
    ensures forall j :: j in r ==> j < rows * cols
  {
    set p | p in InRangeOf(rows, cols, nbrs) && p.0 < rows && p.1 < cols :: Idx(rows, cols, p.0, p.1)
  }

  lemma IdxSetMembers(rows: nat, cols: nat, nbrs: seq<Pos>, j: nat)
    ensures j in IdxSet(rows, cols, nbrs)
        <==> exists p :: p in nbrs && InRange(rows, cols, p) && j == Idx(rows, cols, p.0, p.1)
  {
    if j in IdxSet(rows, cols, nbrs) {
      var q :| q in InRangeOf(rows, cols, nbrs) && q.0 < rows && q.1 < cols && j == Idx(rows, cols, q.0, q.1);
      var p: Pos := (q.0, q.1);
      assert p in nbrs && InRange(rows, cols, p);
    }
    if exists p :: p in nbrs && InRange(rows, cols, p) && j == Idx(rows, cols, p.0, p.1) {
      var p :| p in nbrs && InRange(rows, cols, p) && j == Idx(rows, cols, p.0, p.1);
      var q: (nat, nat) := (p.0, p.1);
      assert q in InRangeOf(rows, cols, nbrs);
    }
  }

  /** Flat indices of the in-range neighbours of the block at flat index `i`. */
  ghost function NbrSet(rows: nat, cols: nat, i: nat): (r: set<nat>)
    requires i < rows * cols
    ensures forall j :: j in r ==> j < rows * cols
  {
    IdxSet(rows, cols, SurroundingBlocks(i / cols, i % cols))
  }

  /** The adjacent-mine number of the block at flat index `i`: None on a mine. */
  function NumberAt(rows: nat, cols: nat, blocks: seq<Block>, i: nat): (n: Option<nat>)
    requires |blocks| == rows * cols && i < |blocks|
  {
    if blocks[i].hasMine then None
    else Some(MinesAround(rows, cols, blocks, SurroundingBlocks(i / cols, i % cols)))
  }

  lemma NumberAtRange(rows: nat, cols: nat, blocks: seq<Block>, i: nat)
    requires |blocks| == rows * cols && i < |blocks|
    ensures NumberAt(rows, cols, blocks, i).None? <==> blocks[i].hasMine
    ensures NumberAt(rows, cols, blocks, i).Some? ==> NumberAt(rows, cols, blocks, i).value <= 12
  {
  }

  ghost predicate SameMines(a: seq<Block>, b: seq<Block>) {
    |a| == |b| && forall i :: 0 <= i < |a| ==> a[i].hasMine == b[i].hasMine
  }

  lemma {:induction false} MinesAroundSameMines(rows: nat, cols: nat, a: seq<Block>, b: seq<Block>, nbrs: seq<Pos>)
    requires |a| == rows * cols && SameMines(a, b)
    ensures MinesAround(rows, cols, a, nbrs) == MinesAround(rows, cols, b, nbrs)
  {
    if nbrs != [] {
      MinesAroundSameMines(rows, cols, a, b, nbrs[..|nbrs| - 1]);
    }
  }

  lemma NumberAtSameMines(rows: nat, cols: nat, a: seq<Block>, b: seq<Block>)
    requires |a| == rows * cols && SameMines(a, b)
    ensures forall i :: 0 <= i < |a| ==> NumberAt(rows, cols, a, i) == NumberAt(rows, cols, b, i)
  {
    forall i | 0 <= i < |a|
      ensures NumberAt(rows, cols, a, i) == NumberAt(rows, cols, b, i)
    {
      MinesAroundSameMines(rows, cols, a, b, SurroundingBlocks(i / cols, i % cols));
    }
  }

  /** Every memoised number equals a fresh count. */
  ghost predicate CacheSound(rows: nat, cols: nat, blocks: seq<Block>)
    requires |blocks| == rows * cols
  {
    forall i :: 0 <= i < |blocks| && blocks[i].cachedNumber.Some? ==>
      blocks[i].cachedNumber == NumberAt(rows, cols, blocks, i)
  }

  lemma CacheSoundTransfer(rows: nat, cols: nat, a: seq<Block>, b: seq<Block>)
    requires |a| == rows * cols && SameMines(a, b) && CacheSound(rows, cols, a)
    requires forall i :: 0 <= i < |b| ==> b[i].cachedNumber == a[i].cachedNumber || b[i].cachedNumber.None?
    ensures CacheSound(rows, cols, b)
  {
    NumberAtSameMines(rows, cols, a, b);
  }

  /** The blocks after the adjacent-mine query at `i` has stored its answer. */
  function Memo(rows: nat, cols: nat, blocks: seq<Block>, i: nat): (r: seq<Block>)
    requires |blocks| == rows * cols && i < |blocks|
    ensures |r| == |blocks|
  {
    blocks[i := blocks[i].(cachedNumber := NumberAt(rows, cols, blocks, i))]
  }

  /** Storing the answer keeps every memo sound, changes neither mines nor statuses, and a
      second query stores nothing new. */
  lemma MemoSound(rows: nat, cols: nat, blocks: seq<Block>, i: nat)
    requires |blocks| == rows * cols && i < |blocks| && CacheSound(rows, cols, blocks)
    ensures SameMines(blocks, Memo(rows, cols, blocks, i))
    ensures CacheSound(rows, cols, Memo(rows, cols, blocks, i))
    ensures forall j :: 0 <= j < |blocks| ==> Memo(rows, cols, blocks, i)[j].status == blocks[j].status
    ensures forall st :: CountStatus(Memo(rows, cols, blocks, i), st) == CountStatus(blocks, st)
    ensures Memo(rows, cols, Memo(rows, cols, blocks, i), i) == Memo(rows, cols, blocks, i)
    ensures blocks[i].cachedNumber.Some? ==> Memo(rows, cols, blocks, i) == blocks
  {
    var m := Memo(rows, cols, blocks, i);
    NumberAtSameMines(rows, cols, blocks, m);
    forall st ensures CountStatus(m, st) == CountStatus(blocks, st) {
      CountStatusUpdate(blocks, i, m[i], st);
      assert blocks[i := m[i]] == m;
    }
    if blocks[i].cachedNumber.Some? {
      assert m == blocks;
    }
  }

  // ---------------------------------------------------------------------------
  // End-of-game marking and the mark cycle
  // ---------------------------------------------------------------------------

  function MarkBlock(b: Block): Block {
    if b.status == BlockStatus.Normal || b.status == BlockStatus.MarkedQuestionable
    then b.(status := BlockStatus.MarkedMine)
    else b
  }

  /** Every Normal or MarkedQuestionable block becomes MarkedMine; nothing else changes. */
  function MarkRemaining(s: seq<Block>): (r: seq<Block>)
    ensures |r| == |s|
    ensures forall i :: 0 <= i < |s| ==> r[i] == MarkBlock(s[i])
    ensures forall i :: 0 <= i < |s| ==> r[i].hasMine == s[i].hasMine && r[i].cachedNumber == s[i].cachedNumber
    ensures forall i :: 0 <= i < |s| ==> (r[i].status == BlockStatus.Open <==> s[i].status == BlockStatus.Open)
    ensures forall i :: 0 <= i < |s| && s[i].status != BlockStatus.Open ==> r[i].status == BlockStatus.MarkedMine
  {
    seq(|s|, i requires 0 <= i < |s| => MarkBlock(s[i]))
  }

  lemma {:induction false} MarkRemainingCounts(s: seq<Block>)
    ensures CountStatus(MarkRemaining(s), BlockStatus.MarkedMine)
         == CountStatus(s, BlockStatus.MarkedMine) + CountStatus(s, BlockStatus.Normal)
            + CountStatus(s, BlockStatus.MarkedQuestionable)
    ensures CountStatus(MarkRemaining(s), BlockStatus.Open) == CountStatus(s, BlockStatus.Open)
    ensures CountStatus(MarkRemaining(s), BlockStatus.Normal) == 0
    ensures CountStatus(MarkRemaining(s), BlockStatus.MarkedQuestionable) == 0
  {
    if s != [] {
      var init := s[..|s| - 1];
      assert MarkRemaining(s)[..|s| - 1] == MarkRemaining(init);
      MarkRemainingCounts(init);
    }
  }

  /** The mark cycle Normal -> MarkedMine -> MarkedQuestionable -> Normal; Open is fixed. */
  function Rotated(st: BlockStatus): (r: BlockStatus)
    ensures r == BlockStatus.Open <==> st == BlockStatus.Open
    ensures st != BlockStatus.Open ==> r != st
  {
    match st
    case Normal => BlockStatus.MarkedMine
    case MarkedMine => BlockStatus.MarkedQuestionable
    case MarkedQuestionable => BlockStatus.Normal
    case Open => BlockStatus.Open
  }

  /** The change to the mark counter made by one rotation from `st`: the counter follows
      the blocks marked as mines. */
  function MarkDelta(st: BlockStatus): (d: int)
    ensures d == (if Rotated(st) == BlockStatus.MarkedMine then 1 else 0) - (if st == BlockStatus.MarkedMine then 1 else 0)
  {
    match st
    case Normal => 1
    case MarkedMine => -1
    case _ => 0
  }

  lemma RotateCycle(st: BlockStatus)
    requires st != BlockStatus.Open
    ensures Rotated(st) != st && Rotated(st) != BlockStatus.Open
    ensures Rotated(Rotated(Rotated(st))) == st
    ensures MarkDelta(st) + MarkDelta(Rotated(st)) + MarkDelta(Rotated(Rotated(st))) == 0
  {
  }

  // ---------------------------------------------------------------------------
  // Display decision tables
  // ---------------------------------------------------------------------------

  /** How a block is drawn, from the board status, the block's own status, its adjacent-mine
      number and the pressed focus `(row, column, isChord)`. */
  function DisplayKindOf(board: BoardStatus, block: BlockStatus, number: Option<nat>,
                         pos: (nat, nat), focus: Option<(nat, nat, bool)>): (k: BlockDisplayKind)
    ensures k.OpenWithNumber? <==> block == BlockStatus.Open && number.Some?
    ensures k.OpenWithNumber? ==> k.n == number.value
    ensures k == ExplodedMine <==> block == BlockStatus.Open && number.None?
    ensures k == NotMarkedMine <==> block == BlockStatus.Normal && board.Died? && number.None?
    ensures k == WrongMarkedMine <==> block == BlockStatus.MarkedMine && board.Died? && number.Some?
    ensures k == BlockDisplayKind.MarkedMine
        <==> block == BlockStatus.MarkedMine && !(board.Died? && number.Some?)
    ensures k == BlockDisplayKind.MarkedQuestionable <==> block == BlockStatus.MarkedQuestionable
    ensures k == PushNormal
        <==> block == BlockStatus.Normal && !IsTerminal(board) && focus.Some?
             && (if focus.value.2 then IsSurrounding(pos, (focus.value.0, focus.value.1))
                 else pos == (focus.value.0, focus.value.1))
    ensures k != PushMarkedQuestionable
  {
    match block
    case Normal =>
      (match board
       case Died(_, _) => if number.None? then NotMarkedMine else BlockDisplayKind.Normal
       case Finished(_, _) => BlockDisplayKind.Normal
       case _ =>
         match focus
         case Some((fy, fx, blast)) =>
           if blast then
             (if IsSurrounding(pos, (fy, fx)) then PushNormal else BlockDisplayKind.Normal)
           else
             (if pos == (fy, fx) then PushNormal else BlockDisplayKind.Normal)
         case None => BlockDisplayKind.Normal)
    case Open =>
      if number.Some? then OpenWithNumber(number.value) else ExplodedMine
    case MarkedMine =>
      if board.Died? && number.Some? then WrongMarkedMine else BlockDisplayKind.MarkedMine
    case MarkedQuestionable =>
      BlockDisplayKind.MarkedQuestionable
  }

  /** The new-game button: a terminal board shows its outcome, otherwise the press state. */
  function GameButtonKindOf(board: BoardStatus, pressed: bool): (k: GameButtonDisplayKind)
    ensures k == GameButtonDisplayKind.Finished <==> board.Finished?
    ensures k == GameButtonDisplayKind.Died <==> board.Died?
    ensures k == Pushed <==> !IsTerminal(board) && pressed
    ensures k == GameButtonDisplayKind.Normal <==> !IsTerminal(board) && !pressed
    ensures k != Danger
  {
    match board
    case Finished(_, _) => GameButtonDisplayKind.Finished
    case Died(_, _) => GameButtonDisplayKind.Died
    case _ => if pressed then Pushed else GameButtonDisplayKind.Normal
  }
}
