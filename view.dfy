/**
  Window layout, display values and hit testing of the renderer (src/view.rs; the older
  copy src/layout.rs has the same arithmetic without zoom and without the captured flag).

  The window is a banner (mine counter, new-game button, timer) above the block field.
  Drawing itself is not modelled; the positions, the digits shown and the mapping from a
  mouse position to a target are. The per-pixel shape test of a block sprite is a
  parameter `mask`, since it reads the bitmap.
 */
module View {
  import opened Wrappers
  import opened Model
  import opened ViewAssets

  // ---------------------------------------------------------------------------
  // Layout
  // ---------------------------------------------------------------------------

  const DIGITEDGE_LEFT: nat := 15
  const DIGITEDGE_RIGHT: nat := 15
  const DIGITEDGE_TOP: nat := 15
  const BUTTONEDGE_TOP: nat := 15
  const MIDDLE_BANNER: nat := 10
  const BLOCK_AREA_EDGE_X: nat := 12
  const BLOCK_AREA_EDGE_Y: nat := 12
  const BLOCK_AREA_EDGE_TOP: nat := 12
  /** Left edge of the block field. */
  const BLOCK_AREA_X: nat := BLOCK_AREA_EDGE_X
  /** Top edge of the block field: the banner with its digits sits above it. */
  const BLOCK_AREA_Y: nat := DIGITEDGE_TOP + DIGIT_HEIGHT + MIDDLE_BANNER + BLOCK_AREA_EDGE_TOP
  /** Digits per counter. */
  const DIGITCOUNT: nat := 3
  /** The largest value a counter is meant to show. */
  const MAXVALUE: int := 999

  datatype LayoutData = LayoutData(blockAreaDims: (nat, nat), areaSize: Size, blockAreaSize: Size,
                                   digitPos1: Point, digitPos2: Point, buttonPos: Point)

  /** The layout of a board of `rows` by `cols` blocks. The source subtracts in unsigned
      arithmetic, so the window must be at least as wide as the right counter and its edge:
      two columns or more. */
  function NewLayoutData(rows: nat, cols: nat): (d: LayoutData)
    requires rows >= 1 && cols >= 2
    ensures d.blockAreaDims == (rows, cols) && d.blockAreaSize == BlockAreaSize(rows, cols)
    ensures d.areaSize.cx == BLOCK_AREA_X + d.blockAreaSize.cx + BLOCK_AREA_EDGE_X
    ensures d.areaSize.cy == BLOCK_AREA_Y + d.blockAreaSize.cy + BLOCK_AREA_EDGE_Y
    // the right counter ends DIGITEDGE_RIGHT pixels before the right edge
    ensures d.digitPos2.x + DIGITCOUNT * DIGIT_WIDTH + DIGITEDGE_RIGHT == d.areaSize.cx
    ensures d.digitPos1 == Point(DIGITEDGE_LEFT, DIGITEDGE_TOP) && d.digitPos2.y == DIGITEDGE_TOP
    // the button is centred, rounding to the left
    ensures d.buttonPos.y == BUTTONEDGE_TOP
    ensures 0 <= d.areaSize.cx - (2 * d.buttonPos.x + BUTTON_WIDTH) <= 1
  {
    var blockAreaSize := BlockAreaSize(rows, cols);
    var areaSize := Size(BLOCK_AREA_X + blockAreaSize.cx + BLOCK_AREA_EDGE_X,
                         BLOCK_AREA_Y + blockAreaSize.cy + BLOCK_AREA_EDGE_Y);
    var digitPos1 := Point(DIGITEDGE_LEFT, DIGITEDGE_TOP);
    var digitPos2 := Point(areaSize.cx - DIGITEDGE_RIGHT - DIGIT_WIDTH * DIGITCOUNT, DIGITEDGE_TOP);
    var buttonPos := Point((areaSize.cx - BUTTON_WIDTH) / 2, BUTTONEDGE_TOP);
    LayoutData((rows, cols), areaSize, blockAreaSize, digitPos1, digitPos2, buttonPos)
  }

  /** The banner and the field are laid out without overlap: the field starts below the
      counters and the button, and lies inside the window with a 12-pixel edge. */
  lemma LayoutFits(rows: nat, cols: nat)
    requires rows >= 1 && cols >= 2
    ensures var d := NewLayoutData(rows, cols);
            && d.digitPos1.y + DIGIT_HEIGHT <= BLOCK_AREA_Y
            && d.buttonPos.y + BUTTON_HEIGHT <= BLOCK_AREA_Y
            && Within(Point(0, 0), d.areaSize, Point(BLOCK_AREA_X, BLOCK_AREA_Y), d.blockAreaSize)
            && Within(Point(0, 0), d.areaSize, d.digitPos2, Size(DIGITCOUNT * DIGIT_WIDTH, DIGIT_HEIGHT))
            && Within(Point(0, 0), d.areaSize, d.buttonPos, Size(BUTTON_WIDTH, BUTTON_HEIGHT))
  {
  }

  /** The button sits strictly between the two counters exactly from eight columns on (every
      preset has eleven or more); on two to seven columns it overlaps the left counter. */
  lemma ButtonClearOfCounters(rows: nat, cols: nat)
    requires rows >= 1 && cols >= 2
    ensures var d := NewLayoutData(rows, cols);
            cols >= 8 <==> d.digitPos1.x + DIGITCOUNT * DIGIT_WIDTH <= d.buttonPos.x
    ensures var d := NewLayoutData(rows, cols);
            cols >= 8 ==> d.buttonPos.x + BUTTON_WIDTH <= d.digitPos2.x
  {
  }

  // ---------------------------------------------------------------------------
  // Values shown by the counters
  // ---------------------------------------------------------------------------

  /** The mine counter: mines still to mark, negative when more blocks are marked. */
  function DisplayValueMineLeft(count: nat, markCount: nat): (v: int)
    ensures v < 0 <==> markCount > count
    ensures v + markCount == count
  {
    count - markCount
  }

  /** The timer: seconds from the start to the end of the game, or to `now` while it is on,
      capped at 999; 0 before the first click. Nothing bounds it from below. */
  function DisplayValueTime(status: BoardStatus, now: int): (v: int)
    ensures status.Ready? ==> v == 0
    ensures v <= MAXVALUE
    ensures status.Going? ==> v == if now - status.start < MAXVALUE then now - status.start else MAXVALUE
  {
    match status
    case Ready => 0
    case Going(s) => Min(now - s, MAXVALUE)
    case Finished(s, e) => Min(e - s, MAXVALUE)
    case Died(s, e) => Min(e - s, MAXVALUE)
  }

  function Min(a: int, b: int): int {
    if a < b then a else b
  }

  /** Once the game is over the timer no longer moves. */
  lemma TimerFrozenWhenOver(status: BoardStatus, now1: int, now2: int)
    requires IsTerminal(status)
    ensures DisplayValueTime(status, now1) == DisplayValueTime(status, now2)
    ensures 0 <= status.end - status.start <= MAXVALUE ==> DisplayValueTime(status, now1) == status.end - status.start
  {
  }

  /** The timer of a running game never runs backwards while the clock does not. */
  lemma TimerMonotone(status: BoardStatus, now1: int, now2: int)
    requires now1 <= now2
    ensures DisplayValueTime(status, now1) <= DisplayValueTime(status, now2)
  {
  }

  // ---------------------------------------------------------------------------
  // The digit panel
  // ---------------------------------------------------------------------------

  /** `10^k`. */
  function Pow10(k: nat): (p: nat)
    ensures p >= 1
  {
    if k == 0 then 1 else 10 * Pow10(k - 1)
  }

  /** The decimal digit of `n` for `10^k`. */
  function DigitAt(n: nat, k: nat): (d: nat)
    ensures d <= 9
  {
    (n / Pow10(k)) % 10
  }

  function Abs(v: int): nat {
    if v < 0 then -v else v
  }

  /** The three cells a counter draws for `value`, left to right: a minus sign in the first
      slot when the value is negative, otherwise the hundreds; then the tens and the units
      of the absolute value. */
  method PanelSprites(value: int) returns (cells: seq<nat>)
    ensures |cells| == DIGITCOUNT
    ensures cells[0] == DIGIT_INDEX_NEG <==> value < 0
    ensures value >= 0 ==> cells[0] == DigitIndex(DigitAt(Abs(value), 2))
    ensures cells[1] == DigitIndex(DigitAt(Abs(value), 1))
    ensures cells[2] == DigitIndex(DigitAt(Abs(value), 0))
  {
    var valueAbs := Abs(value);
    var neg := value < 0;
    cells := [];
    for i := 0 to DIGITCOUNT
      invariant |cells| == i
      invariant i > 0 ==> (cells[0] == DIGIT_INDEX_NEG <==> neg)
      invariant i > 0 && !neg ==> cells[0] == DigitIndex(DigitAt(valueAbs, 2))
      invariant i > 1 ==> cells[1] == DigitIndex(DigitAt(valueAbs, 1))
      invariant i > 2 ==> cells[2] == DigitIndex(DigitAt(valueAbs, 0))
    {
      var spriteIdx;
      if i == 0 && neg {
        spriteIdx := DIGIT_INDEX_NEG;
      } else {
        var digit := (valueAbs % Pow10(DIGITCOUNT - i)) / Pow10(DIGITCOUNT - i - 1);
        ModDivIsDigit(valueAbs, DIGITCOUNT - i - 1);
        spriteIdx := DigitIndex(digit);
      }
      cells := cells + [spriteIdx];
    }
  }

  /** The source's `(n % 10^(k+1)) / 10^k` is the decimal digit of `n` for `10^k`. */
  lemma ModDivIsDigit(n: nat, k: nat)
    ensures (n % Pow10(k + 1)) / Pow10(k) == DigitAt(n, k)
  {
    var p := Pow10(k);
    var q, r := n / (10 * p), n % (10 * p);
    assert n == 10 * p * q + r && 0 <= r < 10 * p;
    var d, e := r / p, r % p;
    assert r == p * d + e && 0 <= e < p;
    BelowTenfold(p, d);
    assert n == p * (10 * q + d) + e;
    DivModUnique(n, p, 10 * q + d, e);
    DivModUnique(10 * q + d, 10, q, d);
  }

  lemma BelowTenfold(p: nat, d: int)
    requires p > 0 && p * d < 10 * p
    ensures d < 10
  {
    if d >= 10 {
      MulMonotoneInt(10, d, p);
    }
  }

  /** Euclidean quotient and remainder are the only pair with a remainder in `[0, |p|)`. */
  lemma DivModUnique(n: int, p: int, q: int, r: int)
    requires p != 0 && n == p * q + r && 0 <= r < Abs(p)
    ensures n / p == q && n % p == r
  {
    var q', r' := n / p, n % p;
    assert p * (q - q') == r' - r;
    if q != q' {
      AbsMul(p, q - q');
      MulMonotoneInt(1, Abs(q - q'), Abs(p));
    }
  }

  lemma MulMonotoneInt(a: int, b: int, p: int)
    requires a <= b && p >= 0
    ensures p * a <= p * b
  {
  }

  /** The cells `PanelSprites` draws for `value`. */
  predicate PanelOf(value: int, cells: seq<nat>) {
    && |cells| == DIGITCOUNT
    && (cells[0] == DIGIT_INDEX_NEG <==> value < 0)
    && (value >= 0 ==> cells[0] == DigitIndex(DigitAt(Abs(value), 2)))
    && cells[1] == DigitIndex(DigitAt(Abs(value), 1))
    && cells[2] == DigitIndex(DigitAt(Abs(value), 0))
  }

  /** The mine counter shows the mines not yet marked: the panel drawn for it reads back
      `count - markCount` when that lies in -99..999, and shows the minus sign exactly when
      more blocks are marked than there are mines. */
  lemma MineCounterShows(count: nat, markCount: nat, cells: seq<nat>)
    requires PanelOf(DisplayValueMineLeft(count, markCount), cells)
    ensures cells[0] == DIGIT_INDEX_NEG <==> markCount > count
    ensures markCount <= count + 99 && count <= markCount + MAXVALUE ==> ReadPanel(cells) + markCount == count
  {
    PanelReadsBack(DisplayValueMineLeft(count, markCount), cells);
  }

  /** The number a reader sees in three cells. */
  function ReadPanel(cells: seq<nat>): int
    requires |cells| == 3 && forall i :: 0 <= i < 3 ==> cells[i] <= 11
    requires forall i :: 1 <= i < 3 ==> 2 <= cells[i]
  {
    var tail := 10 * DigitOfIndex(cells[1]) + DigitOfIndex(cells[2]);
    if cells[0] == DIGIT_INDEX_NEG then -tail
    else if cells[0] < 2 then tail
    else 100 * DigitOfIndex(cells[0]) + tail
  }

  /** A counter reads back its value from 0 to 999 and from -99 to -1; larger magnitudes
      lose their leading digits (a negative value loses the hundreds). */
  lemma PanelReadsBack(value: int, cells: seq<nat>)
    requires |cells| == DIGITCOUNT
    requires cells[0] == DIGIT_INDEX_NEG <==> value < 0
    requires value >= 0 ==> cells[0] == DigitIndex(DigitAt(Abs(value), 2))
    requires cells[1] == DigitIndex(DigitAt(Abs(value), 1))
    requires cells[2] == DigitIndex(DigitAt(Abs(value), 0))
    ensures 0 <= value <= MAXVALUE ==> ReadPanel(cells) == value
    ensures -99 <= value < 0 ==> ReadPanel(cells) == value
    ensures value >= 0 ==> ReadPanel(cells) == value % 1000
    ensures value < 0 ==> ReadPanel(cells) == -(Abs(value) % 100)
  {
    var n := Abs(value);
    LowDigits(n);
    if value >= 0 {
      assert ReadPanel(cells) == 100 * DigitAt(n, 2) + (10 * DigitAt(n, 1) + DigitAt(n, 0));
    }
  }

  /** The low decimal digits of `n` are `n` modulo 100 and 1000. */
  lemma LowDigits(n: nat)
    ensures 10 * DigitAt(n, 1) + DigitAt(n, 0) == n % 100
    ensures 100 * DigitAt(n, 2) + 10 * DigitAt(n, 1) + DigitAt(n, 0) == n % 1000
  {
    assert Pow10(1) == 10 && Pow10(2) == 100 && Pow10(3) == 1000;
    ModDivIsDigit(n, 0);
    ModDivIsDigit(n, 1);
    ModDivIsDigit(n, 2);
    ModMod(n, 10, 10);
    ModMod(n, 100, 10);
    var b := n % 100;
    assert b == 10 * (b / 10) + b % 10;
    var c := n % 1000;
    assert c == 100 * (c / 100) + c % 100;
  }

  lemma ModMod(n: nat, p: nat, k: nat)
    requires p > 0 && k > 0
    ensures (n % (k * p)) % p == n % p
  {
    var big, rem := n / (k * p), n % (k * p);
    assert n == (k * p) * big + rem;
    assert rem == p * (rem / p) + rem % p;
    assert n == p * (k * big + rem / p) + rem % p;
    DivModUnique(n, p, k * big + rem / p, rem % p);
  }

  // ---------------------------------------------------------------------------
  // Interaction state
  // ---------------------------------------------------------------------------

  /** What the mouse is doing to the window: the button held down, the mouse captured,
      and the block held down as (row, column, isChord). */
  class LayoutState {
    var buttonPressed: bool
    var windowCaptured: bool
    var blockPressed: Option<(nat, nat, bool)>

    constructor ()
      ensures !buttonPressed && !windowCaptured && blockPressed == None
    {
      buttonPressed, windowCaptured, blockPressed := false, false, None;
    }

    method SetButtonPressed(pressed: bool)
      modifies this`buttonPressed
      ensures buttonPressed == pressed
    {
      buttonPressed := pressed;
    }

    method SetWindowCaptured(captured: bool)
      modifies this`windowCaptured
      ensures windowCaptured == captured
    {
      windowCaptured := captured;
    }

    method SetBlockPressed(y: nat, x: nat, blast: bool)
      modifies this`blockPressed
      ensures blockPressed == Some((y, x, blast))
    {
      blockPressed := Some((y, x, blast));
    }

    /** Releases the held block only if it is the one given. */
    method UnsetBlockPressed(y: nat, x: nat, blast: bool)
      modifies this`blockPressed
      ensures old(blockPressed) == Some((y, x, blast)) ==> blockPressed == None
      ensures old(blockPressed) != Some((y, x, blast)) ==> blockPressed == old(blockPressed)
    {
      if blockPressed == Some((y, x, blast)) {
        blockPressed := None;
      }
    }
  }

  // ---------------------------------------------------------------------------
  // Zoom
  // ---------------------------------------------------------------------------

  datatype ZoomRatio = Zoom1x | Zoom2x | Zoom3x

  function Ratio(z: ZoomRatio): (v: nat)
    ensures 1 <= v <= 3
  {
    match z
    case Zoom1x => 1
    case Zoom2x => 2
    case Zoom3x => 3
  }

  /** Integer division rounding toward zero, as `isize` division does: the remainder is
      smaller than the divisor and has the sign of the dividend. */
  function TruncDiv(a: int, b: int): (q: int)
    requires b != 0
    ensures Abs(a - b * q) < Abs(b)
    ensures a - b * q == 0 || (a - b * q < 0 <==> a < 0)
  {
    var na, nb := Abs(a), Abs(b);
    var q0, m := na / nb, na % nb;
    var r := if (a < 0) == (b < 0) then q0 else -q0;
    EuclidDecompose(na, nb);
    SignedProduct(a, b, q0, r);
    RemainderBySign(a, b * r, nb * q0, m, nb);
    r
  }

  lemma EuclidDecompose(n: nat, d: nat)
    requires d > 0
    ensures n == d * (n / d) + n % d && 0 <= n % d < d
  {
  }

  lemma RemainderBySign(a: int, br: int, ab: int, m: int, absB: int)
    requires Abs(a) == ab + m && 0 <= m < absB
    requires br == if a < 0 then -ab else ab
    ensures Abs(a - br) < absB
    ensures a - br == 0 || (a - br < 0 <==> a < 0)
  {
  }

  lemma SignedProduct(a: int, b: int, q0: int, r: int)
    requires b != 0
    requires r == if (a < 0) == (b < 0) then q0 else -q0
    ensures b * r == if a < 0 then -(Abs(b) * q0) else Abs(b) * q0
  {
    if b > 0 {
      if a < 0 { NegMul(b, q0); }
    } else if a >= 0 {
      NegMul(-b, q0);
    } else {
      NegMul(-b, -q0);
    }
  }

  lemma NegMul(c: int, r: int)
    ensures (-c) * r == c * (-r) == -(c * r)
  {
  }

  lemma AbsMul(a: int, b: int)
    ensures Abs(a * b) == Abs(a) * Abs(b)
  {
    if a < 0 && b < 0 {
      assert a * b == (-a) * (-b);
    } else if a < 0 && b >= 0 {
      assert a * b == -((-a) * b);
    } else if a >= 0 && b < 0 {
      assert a * b == -(a * (-b));
    }
  }

  /** The remainder that goes with `TruncDiv`: it has the sign of `a`. */
  function TruncRem(a: int, b: int): int
    requires b != 0
  {
    a - b * TruncDiv(a, b)
  }

  function ZoomSize(z: ZoomRatio, s: Size): (r: Size)
    ensures z == Zoom1x ==> r == s
  {
    var v := Ratio(z);
    if v == 1 then s else Size(s.cx * v, s.cy * v)
  }

  /** A window pixel back in unzoomed layout coordinates. */
  function UnzoomPoint(z: ZoomRatio, p: Point): (r: Point)
    ensures z == Zoom1x ==> r == p
  {
    var v := Ratio(z);
    if v == 1 then p else Point(TruncDiv(p.x, v), TruncDiv(p.y, v))
  }

  /** Every window pixel of a zoomed layout pixel maps back to it (for pixels at
      non-negative coordinates), and zooming a size scales both sides by the ratio. */
  lemma ZoomRoundTrip(z: ZoomRatio, p: Point, dx: nat, dy: nat, s: Size)
    requires p.x >= 0 && p.y >= 0 && dx < Ratio(z) && dy < Ratio(z)
    ensures UnzoomPoint(z, Point(p.x * Ratio(z) + dx, p.y * Ratio(z) + dy)) == p
    ensures ZoomSize(z, s) == Size(s.cx * Ratio(z), s.cy * Ratio(z))
  {
    var v := Ratio(z);
    if v != 1 {
      TruncDivExact(p.x, v, dx);
      TruncDivExact(p.y, v, dy);
    }
  }

  lemma TruncDivExact(a: nat, v: nat, d: nat)
    requires v >= 1 && d < v
    ensures TruncDiv(a * v + d, v) == a
  {
    DivModUnique(a * v + d, v, a, d);
  }

  // ---------------------------------------------------------------------------
  // Hit testing
  // ---------------------------------------------------------------------------

  /** Division rounding toward negative infinity for a positive divisor, built from the
      truncating operators as the source does; for any non-zero divisor it is Euclidean
      division, Dafny's own `/`. */
  function FloorDiv(lhs: int, rhs: int): (q: int)
    requires rhs != 0
    ensures q == lhs / rhs
    ensures rhs > 0 ==> rhs * q <= lhs < rhs * q + rhs
  {
    var q := TruncDiv(lhs, rhs);
    var r := TruncRem(lhs, rhs);
    FloorDivIsEuclid(lhs, rhs, q, r);
    if r < 0 then (if rhs > 0 then q - 1 else q + 1) else q
  }

  lemma FloorDivIsEuclid(lhs: int, rhs: int, q: int, r: int)
    requires rhs != 0 && q == TruncDiv(lhs, rhs) && r == TruncRem(lhs, rhs)
    ensures var f := if r < 0 then (if rhs > 0 then q - 1 else q + 1) else q;
            f == lhs / rhs
  {
    if r < 0 {
      if rhs > 0 {
        assert lhs == rhs * (q - 1) + (r + rhs);
        DivModUnique(lhs, rhs, q - 1, r + rhs);
      } else {
        assert lhs == rhs * (q + 1) + (r - rhs);
        DivModUnique(lhs, rhs, q + 1, r - rhs);
      }
    } else {
      DivModUnique(lhs, rhs, q, r);
    }
  }

  datatype GameTarget = GameButton | FieldBlock(y: nat, x: nat) | Other

  /** Layout point `p` falls on block (y, x): the block is on the board, `p` is inside the
      block's 24 by 20 sprite cell, and the shape `mask` of the cell is set there. */
  predicate BlockHit(layout: LayoutData, mask: (BlockShape, nat, nat) -> bool, p: Point, y: nat, x: nat) {
    var yOffset, xOffset := p.y - BLOCK_AREA_Y - BLOCKDELTA_Y * y, p.x - BLOCK_AREA_X - BLOCKDELTA_X * x;
    && y < layout.blockAreaDims.0 && x < layout.blockAreaDims.1
    && 0 <= yOffset < BLOCKSIZE_Y && 0 <= xOffset < BLOCKSIZE_X
    && mask(ShapeOf(y, x), yOffset, xOffset)
  }

  /** What the window pixel `point` points at: the new-game button takes precedence; then
      the leftmost block of the row under the point whose shape covers it; else nothing. */
  method HitTest(layout: LayoutData, zoom: ZoomRatio, mask: (BlockShape, nat, nat) -> bool, point: Point)
    returns (t: GameTarget)
    ensures var p := UnzoomPoint(zoom, point);
            && (t == GameButton <==> Inside(layout.buttonPos, Size(BUTTON_WIDTH, BUTTON_HEIGHT), p))
            && (t.FieldBlock? ==> BlockHit(layout, mask, p, t.y, t.x)
                                  && forall x :: 0 <= x < t.x ==> !BlockHit(layout, mask, p, t.y, x))
            && (t.Other? ==> forall y, x :: !BlockHit(layout, mask, p, y, x))
  {
    var p := UnzoomPoint(zoom, point);
    if Inside(layout.buttonPos, Size(BUTTON_WIDTH, BUTTON_HEIGHT), p) {
      return GameButton;
    }
    var yIdx := FloorDiv(p.y - BLOCK_AREA_Y, BLOCKSIZE_Y);
    forall y: nat | yIdx != y ensures !(0 <= p.y - BLOCK_AREA_Y - BLOCKDELTA_Y * y < BLOCKSIZE_Y) {
      RowUnique(p.y - BLOCK_AREA_Y, y, yIdx);
    }
    if 0 <= yIdx < layout.blockAreaDims.0 {
      var hit := ScanRow(layout, mask, p, yIdx);
      if hit.Some? {
        return FieldBlock(yIdx, hit.value);
      }
    }
    return Other;
  }

  /** The leftmost block of row `yIdx` that `p` hits, if any. Only the columns whose cells
      can contain `p` horizontally are tried. */
  method ScanRow(layout: LayoutData, mask: (BlockShape, nat, nat) -> bool, p: Point, yIdx: nat)
    returns (hit: Option<nat>)
    requires yIdx < layout.blockAreaDims.0 && 0 <= p.y - BLOCK_AREA_Y - BLOCKDELTA_Y * yIdx < BLOCKSIZE_Y
    ensures hit.Some? ==> BlockHit(layout, mask, p, yIdx, hit.value)
                          && forall x :: 0 <= x < hit.value ==> !BlockHit(layout, mask, p, yIdx, x)
    ensures hit.None? ==> forall x :: !BlockHit(layout, mask, p, yIdx, x)
  {
    var xIdxMin := FloorDiv(p.x - BLOCK_AREA_X - (BLOCKSIZE_X - 1), BLOCKDELTA_X);
    var xIdxMax := FloorDiv(p.x - BLOCK_AREA_X, BLOCKDELTA_X);
    var xIdx := xIdxMin;
    while xIdx <= xIdxMax
      invariant xIdxMin <= xIdx <= xIdxMax + 1
      invariant forall x: nat :: x < xIdx ==> !BlockHit(layout, mask, p, yIdx, x)
    {
      if 0 <= xIdx < layout.blockAreaDims.1 {
        var xOffset: nat := p.x - BLOCK_AREA_X - BLOCKDELTA_X * xIdx;
        var yOffset: nat := p.y - BLOCK_AREA_Y - BLOCKDELTA_Y * yIdx;
        if xOffset < BLOCKSIZE_X && mask(ShapeOf(yIdx, xIdx), yOffset, xOffset) {
          return Some(xIdx);
        }
      }
      xIdx := xIdx + 1;
    }
    return None;
  }

  /** Only one row index puts a vertical offset into the 20-pixel band of a row. */
  lemma RowUnique(dy: int, y: nat, yIdx: int)
    requires yIdx == FloorDiv(dy, BLOCKSIZE_Y) && y != yIdx
    ensures !(0 <= dy - BLOCKDELTA_Y * y < BLOCKSIZE_Y)
  {
    if 0 <= dy - BLOCKDELTA_Y * y < BLOCKSIZE_Y {
      DivModUnique(dy, BLOCKSIZE_Y, y, dy - BLOCKDELTA_Y * y);
    }
  }
}
