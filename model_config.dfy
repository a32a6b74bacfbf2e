/**
  Board settings of the newer configuration (src/model_config.rs): the three presets,
  the clamping constructor for custom boards, and the defaults.
 */
module ModelConfig {

  datatype BoardSettingKind = Easy | Normal | Hard | Custom

  /** `x` columns, `y` rows and `c` mines. */
  datatype BoardSetting = BoardSetting(x: nat, y: nat, c: nat, k: BoardSettingKind)

  const EASY: BoardSetting := BoardSetting(11, 10, 10, Easy)
  const NORMAL: BoardSetting := BoardSetting(21, 15, 50, Normal)
  const HARD: BoardSetting := BoardSetting(41, 15, 99, Hard)

  /** `clamp(lo, v, hi)`: `lo` below the range, `hi` above it. */
  function Clamp(lo: int, v: int, hi: int): (r: int)
    requires lo <= hi
    ensures lo <= r <= hi
    ensures lo <= v <= hi ==> r == v
    ensures v < lo ==> r == lo
    ensures v > hi ==> r == hi
  {
    if v < lo then lo else if v > hi then hi else v
  }

  /** The mine range a board of the given size allows. */
  predicate WellFormed(x: nat, y: nat, c: nat) {
    EASY.x <= x <= HARD.x && EASY.y <= y <= HARD.y && EASY.c <= c <= (x - 1) * (y - 1)
  }

  function NewCustom(x: nat, y: nat, c: nat): (s: BoardSetting)
    ensures s.k == Custom
    ensures WellFormed(s.x, s.y, s.c)
    ensures s.x == Clamp(EASY.x, x, HARD.x) && s.y == Clamp(EASY.y, y, HARD.y)
    ensures s.c == Clamp(EASY.c, c, (s.x - 1) * (s.y - 1))
  {
    var x' := Clamp(EASY.x, x, HARD.x);
    var y' := Clamp(EASY.y, y, HARD.y);
    assert (x' - 1) * (y' - 1) >= 10 * 9;
    var c' := Clamp(EASY.c, c, (x' - 1) * (y' - 1));
    BoardSetting(x', y', c', Custom)
  }

  /** A setting already in range comes back unchanged, so normalising twice is normalising once. */
  lemma NewCustomFixesWellFormed(x: nat, y: nat, c: nat)
    ensures WellFormed(x, y, c) ==> NewCustom(x, y, c) == BoardSetting(x, y, c, Custom)
    ensures var s := NewCustom(x, y, c); NewCustom(s.x, s.y, s.c) == s
  {
  }

  /** Requests at or below the easy corner give the easy board; requests at or beyond the
      hard size with at least as many mines as fit give the largest board, full of mines. */
  lemma NewCustomCorners(x: nat, y: nat, c: nat)
    ensures x <= EASY.x && y <= EASY.y && c <= EASY.c ==> NewCustom(x, y, c) == BoardSetting(11, 10, 10, Custom)
    ensures x >= HARD.x && y >= HARD.y && c >= 560 ==> NewCustom(x, y, c) == BoardSetting(41, 15, 560, Custom)
  {
  }

  lemma PresetsWellFormed()
    ensures WellFormed(EASY.x, EASY.y, EASY.c)
    ensures WellFormed(NORMAL.x, NORMAL.y, NORMAL.c)
    ensures WellFormed(HARD.x, HARD.y, HARD.c)
  {
  }

  /** The default board is the easy preset: the smallest setting the clamping allows, which
      a custom request of its own size reproduces. */
  function DefaultBoardSetting(): (s: BoardSetting)
    ensures s == EASY
    ensures WellFormed(s.x, s.y, s.c)
    ensures forall x, y, c :: WellFormed(x, y, c) ==> s.x <= x && s.y <= y && s.c <= c
    ensures NewCustom(s.x, s.y, s.c) == s.(k := Custom)
  {
    EASY
  }

  /** Whether the question-mark state may be used; `true` unless configured otherwise. */
  datatype AllowMarks = AllowMarks(allowed: bool)

  datatype Config = Config(boardSetting: BoardSetting, allowMarks: AllowMarks)

  /** A new configuration takes every field's default: the easy board, which is well formed
      and kept by normalisation, and question marks allowed. */
  function NewConfig(): (c: Config)
    ensures c.boardSetting.k == Easy && c.allowMarks.allowed
    ensures WellFormed(c.boardSetting.x, c.boardSetting.y, c.boardSetting.c)
    ensures NewCustom(c.boardSetting.x, c.boardSetting.y, c.boardSetting.c) == c.boardSetting.(k := Custom)
  {
    Config(DefaultBoardSetting(), AllowMarks(true))
  }
}
