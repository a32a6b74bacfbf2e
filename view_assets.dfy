/**
  Sprite-sheet arithmetic of the renderer (src/view_assets.rs; the older copy src/assets.rs
  has the same definitions). Each sheet is a bitmap cut into equal cells: the digit and
  button sheets are one column of cells, the block sheet two columns (one per block shape).
  Loading and blitting bitmaps is not modelled, only which cell is drawn where.
 */
module ViewAssets {
  import opened Wrappers
  import opened Model

  /** A pixel position (`isize` in the source). */
  datatype Point = Point(x: int, y: int)

  /** A pixel extent (`usize` in the source). */
  datatype Size = Size(cx: nat, cy: nat)

  /** Whether `p` lies in the rectangle with corner `origin` and extent `size`. */
  predicate Inside(origin: Point, size: Size, p: Point) {
    origin.x <= p.x < origin.x + size.cx && origin.y <= p.y < origin.y + size.cy
  }

  /** Whether the rectangle (`p`, `s`) lies within the rectangle (`origin`, `size`). */
  predicate Within(origin: Point, size: Size, p: Point, s: Size) {
    origin.x <= p.x && p.x + s.cx <= origin.x + size.cx && origin.y <= p.y && p.y + s.cy <= origin.y + size.cy
  }

  /** Cells `i` and `j` of a one-column sheet with cells `h` high do not overlap. */
  lemma CellsDisjoint(i: nat, j: nat, h: nat)
    requires i != j
    ensures i * h + h <= j * h || j * h + h <= i * h
  {
    if i < j {
      assert (i + 1) * h <= j * h by { MulMonotone(i + 1, j, h); }
    } else {
      assert (j + 1) * h <= i * h by { MulMonotone(j + 1, i, h); }
    }
  }

  lemma MulMonotone(a: nat, b: nat, h: nat)
    requires a <= b
    ensures a * h <= b * h
  {
  }

  // ---------------------------------------------------------------------------
  // Digits
  // ---------------------------------------------------------------------------

  const DIGIT_WIDTH: nat := 13
  const DIGIT_HEIGHT: nat := 23

  /** The cell of the minus sign. */
  const DIGIT_INDEX_NEG: nat := 0

  /** The cell of the decimal digit `v`; the sheet holds 9 down to 0 from cell 2 on. */
  function DigitIndex(v: nat): (i: nat)
    requires v <= 9
    ensures 2 <= i <= 11 && i != DIGIT_INDEX_NEG
  {
    11 - v
  }

  /** The digit shown in cell `i`, for cells 2 to 11. */
  function DigitOfIndex(i: nat): nat
    requires 2 <= i <= 11
  {
    11 - i
  }

  /** The digit cells decode back to their digit, and every digit cell is one of them. */
  lemma DigitIndexRoundTrip(v: nat, i: nat)
    ensures v <= 9 ==> DigitOfIndex(DigitIndex(v)) == v
    ensures 2 <= i <= 11 ==> DigitOfIndex(i) <= 9 && DigitIndex(DigitOfIndex(i)) == i
  {
  }

  /** Cells on the digit sheet: the minus sign, an unused cell, and the digits 9 down to 0. */
  const DIGIT_CELLS: nat := 12

  /** Where cell `i` of the digit sheet is and how large it is: each cell of the sheet lies
      on it, one digit size per cell. */
  function DigitSpriteCoord(i: nat): (r: (Point, Size))
    ensures r.1 == Size(DIGIT_WIDTH, DIGIT_HEIGHT)
    ensures r.0.x == 0 && r.0.y == i * DIGIT_HEIGHT
    ensures i < DIGIT_CELLS <==> Within(Point(0, 0), Size(DIGIT_WIDTH, DIGIT_CELLS * DIGIT_HEIGHT), r.0, r.1)
  {
    (Point(0, i * DIGIT_HEIGHT), Size(DIGIT_WIDTH, DIGIT_HEIGHT))
  }

  /** Two different digit values, or a digit and the minus sign, are cut from disjoint cells. */
  lemma DigitSpritesDisjoint(v: nat, w: nat)
    requires v <= 9 && w <= 9 && v != w
    ensures var a, b := DigitSpriteCoord(DigitIndex(v)).0.y, DigitSpriteCoord(DigitIndex(w)).0.y;
            a + DIGIT_HEIGHT <= b || b + DIGIT_HEIGHT <= a
    ensures var a, b := DigitSpriteCoord(DigitIndex(v)).0.y, DigitSpriteCoord(DIGIT_INDEX_NEG).0.y;
            a >= b + DIGIT_HEIGHT
  {
    CellsDisjoint(DigitIndex(v), DigitIndex(w), DIGIT_HEIGHT);
  }

  // ---------------------------------------------------------------------------
  // The new-game button
  // ---------------------------------------------------------------------------

  const BUTTON_WIDTH: nat := 24
  const BUTTON_HEIGHT: nat := 24

  /** The cell of each face of the new-game button. */
  function ButtonIndex(k: GameButtonDisplayKind): (i: nat)
    ensures i < 5
  {
    match k
    case Normal => 4
    case Pushed => 0
    case Danger => 3
    case Finished => 1
    case Died => 2
  }

  /** The face drawn in cell `i` of the five. */
  function ButtonKindOfIndex(i: nat): GameButtonDisplayKind
    requires i < 5
  {
    if i == 0 then Pushed
    else if i == 1 then GameButtonDisplayKind.Finished
    else if i == 2 then GameButtonDisplayKind.Died
    else if i == 3 then Danger
    else GameButtonDisplayKind.Normal
  }

  /** The button faces and the five cells correspond one to one. */
  lemma ButtonIndexBijective(k: GameButtonDisplayKind, i: nat)
    ensures ButtonKindOfIndex(ButtonIndex(k)) == k
    ensures i < 5 ==> ButtonIndex(ButtonKindOfIndex(i)) == i
  {
  }

  /** Where cell `i` of the button sheet is: exactly the five face cells lie on the sheet. */
  function ButtonSpriteCoord(i: nat): (r: (Point, Size))
    ensures r.1 == Size(BUTTON_WIDTH, BUTTON_HEIGHT)
    ensures r.0.x == 0 && r.0.y == i * BUTTON_HEIGHT
    ensures i < 5 <==> Within(Point(0, 0), Size(BUTTON_WIDTH, 5 * BUTTON_HEIGHT), r.0, r.1)
  {
    (Point(0, i * BUTTON_HEIGHT), Size(BUTTON_WIDTH, BUTTON_HEIGHT))
  }

  /** Different faces are cut from disjoint cells of the button sheet. */
  lemma ButtonSpritesDisjoint(k: GameButtonDisplayKind, l: GameButtonDisplayKind)
    requires k != l
    ensures var a, b := ButtonSpriteCoord(ButtonIndex(k)).0.y, ButtonSpriteCoord(ButtonIndex(l)).0.y;
            a + BUTTON_HEIGHT <= b || b + BUTTON_HEIGHT <= a
  {
    ButtonIndexBijective(k, 0);
    ButtonIndexBijective(l, 0);
    CellsDisjoint(ButtonIndex(k), ButtonIndex(l), BUTTON_HEIGHT);
  }

  // ---------------------------------------------------------------------------
  // Blocks
  // ---------------------------------------------------------------------------

  const BLOCKSIZE_X: nat := 24
  const BLOCKSIZE_Y: nat := 20
  /** Horizontal step between neighbouring blocks: the triangles interlock. */
  const BLOCKDELTA_X: nat := 13
  const BLOCKDELTA_Y: nat := 20

  /** The pixel size of the field of a `rows` by `cols` board; the source's unsigned
      subtraction needs a board of at least one row and one column. */
  function BlockAreaSize(rows: nat, cols: nat): (s: Size)
    requires rows >= 1 && cols >= 1
    ensures s.cx >= BLOCKSIZE_X && s.cy >= BLOCKSIZE_Y
  {
    Size(BLOCKSIZE_X + (cols - 1) * BLOCKDELTA_X, BLOCKSIZE_Y + (rows - 1) * BLOCKDELTA_Y)
  }

  /** Where block (y, x) is drawn when the field's corner is `origin`. */
  function BlockPos(origin: Point, item: (nat, nat)): (p: Point)
    ensures p.x >= origin.x && p.y >= origin.y
  {
    Point(origin.x + item.1 * BLOCKDELTA_X, origin.y + item.0 * BLOCKDELTA_Y)
  }

  /** Every block of the board is drawn inside the field. */
  lemma BlockInsideArea(origin: Point, rows: nat, cols: nat, y: nat, x: nat)
    requires y < rows && x < cols
    ensures Within(origin, BlockAreaSize(rows, cols), BlockPos(origin, (y, x)), Size(BLOCKSIZE_X, BLOCKSIZE_Y))
  {
    MulMonotone(x, cols - 1, BLOCKDELTA_X);
    MulMonotone(y, rows - 1, BLOCKDELTA_Y);
  }

  /** Neighbouring blocks of a row start 13 pixels apart and rows 20 pixels apart. */
  lemma BlockPosSteps(origin: Point, y: nat, x: nat)
    ensures BlockPos(origin, (y, x + 1)).x == BlockPos(origin, (y, x)).x + BLOCKDELTA_X
    ensures BlockPos(origin, (y + 1, x)).y == BlockPos(origin, (y, x)).y + BLOCKDELTA_Y
    ensures BlockPos(origin, (y, x + 1)).y == BlockPos(origin, (y, x)).y
  {
  }

  /** Whether the sheet has a row for `k`: the source's unsigned `19 - n` needs `n <= 19`. */
  predicate Drawable(k: BlockDisplayKind) {
    k.OpenWithNumber? ==> k.n <= 19
  }

  /** The row of the block sheet that draws `k`; numbers 0 to 12 count up from row 19. */
  function BlockKindRow(k: BlockDisplayKind): (r: nat)
    requires Drawable(k)
    ensures r <= 19
    ensures k.OpenWithNumber? ==> r + k.n == 19
    ensures !k.OpenWithNumber? && k != PushNormal ==> r <= 6
  {
    match k
    case Normal => 0
    case MarkedMine => 1
    case MarkedQuestionable => 2
    case ExplodedMine => 3
    case WrongMarkedMine => 4
    case NotMarkedMine => 5
    case PushMarkedQuestionable => 6
    case OpenWithNumber(n) => 19 - n
    case PushNormal => 19
  }

  function ShapeColumn(shape: BlockShape): nat {
    match shape
    case DeltaLike => 0
    case RevDeltaLike => 1
  }

  /** The cell of a block of shape `shape` drawn as `k`. */
  function BlockSpriteIndex(shape: BlockShape, k: BlockDisplayKind): (i: nat)
    requires Drawable(k)
    ensures i < 40
    ensures i % 2 == 0 <==> shape == DeltaLike
  {
    BlockKindRow(k) * 2 + ShapeColumn(shape)
  }

  /** Where cell `i` of the block sheet is: cells fill two columns row by row, even cells on
      the left; exactly the forty cells of twenty rows lie on the sheet. */
  function BlockSpriteCoord(i: nat): (r: (Point, Size))
    ensures r.1 == Size(BLOCKSIZE_X, BLOCKSIZE_Y)
    ensures r.0.x == 0 <==> i % 2 == 0
    ensures i < 40 <==> Within(Point(0, 0), Size(2 * BLOCKSIZE_X, 20 * BLOCKSIZE_Y), r.0, r.1)
  {
    (Point((i % 2) * BLOCKSIZE_X, (i / 2) * BLOCKSIZE_Y), Size(BLOCKSIZE_X, BLOCKSIZE_Y))
  }

  /** Rectangles that share no pixel. */
  predicate Apart(p: Point, s: Size, q: Point, t: Size) {
    p.x + s.cx <= q.x || q.x + t.cx <= p.x || p.y + s.cy <= q.y || q.y + t.cy <= p.y
  }

  /** Different cells of the block sheet share no pixel. */
  lemma BlockSpritesDisjoint(i: nat, j: nat)
    requires i != j
    ensures Apart(BlockSpriteCoord(i).0, BlockSpriteCoord(i).1, BlockSpriteCoord(j).0, BlockSpriteCoord(j).1)
  {
    if i % 2 == j % 2 {
      assert i / 2 != j / 2;
      CellsDisjoint(i / 2, j / 2, BLOCKSIZE_Y);
    }
  }

  /** The cell of (shape, kind) sits in the shape's column and the kind's row. */
  lemma BlockSpriteDecode(shape: BlockShape, k: BlockDisplayKind)
    requires Drawable(k)
    ensures BlockSpriteCoord(BlockSpriteIndex(shape, k)).0
         == Point(ShapeColumn(shape) * BLOCKSIZE_X, BlockKindRow(k) * BLOCKSIZE_Y)
  {
  }

  /** Two kinds whose numbers are at most 12 (a block has twelve neighbours) share a row only
      when they are equal, or are the empty open block and the pressed Normal block, which are
      drawn alike. Numbers 13 to 19 would reuse the rows of kinds 0 to 6. */
  lemma BlockKindRowInjective(k: BlockDisplayKind, l: BlockDisplayKind)
    requires k.OpenWithNumber? ==> k.n <= 12
    requires l.OpenWithNumber? ==> l.n <= 12
    requires BlockKindRow(k) == BlockKindRow(l)
    ensures k == l || (k == OpenWithNumber(0) && l == PushNormal) || (k == PushNormal && l == OpenWithNumber(0))
  {
  }

  /** Every kind the board's display table produces for a block with a real adjacent-mine
      number (at most 12) has a cell on the sheet. */
  lemma DisplayedKindsDrawable(board: BoardStatus, block: BlockStatus, number: Option<nat>,
                               pos: (nat, nat), focus: Option<(nat, nat, bool)>)
    requires number.Some? ==> number.value <= 12
    ensures var k := DisplayKindOf(board, block, number, pos, focus);
            Drawable(k) && (k.OpenWithNumber? ==> 7 <= BlockKindRow(k) <= 19)
  {
  }
}
