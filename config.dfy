/**
  Board settings of the older configuration (src/config.rs), which the board engine reads:
  the same presets and clamping without a kind tag, and a `Config` that always yields
  the easy preset.
 */
module Config {
  import ModelConfig

  datatype BoardSetting = BoardSetting(x: nat, y: nat, c: nat)

  const EASY: BoardSetting := BoardSetting(11, 10, 10)
  const NORMAL: BoardSetting := BoardSetting(21, 15, 50)
  const HARD: BoardSetting := BoardSetting(41, 15, 99)

  function NewNormalized(x: nat, y: nat, c: nat): (s: BoardSetting)
    ensures ModelConfig.WellFormed(s.x, s.y, s.c)
    ensures s.x == ModelConfig.Clamp(EASY.x, x, HARD.x) && s.y == ModelConfig.Clamp(EASY.y, y, HARD.y)
    ensures s.c == ModelConfig.Clamp(EASY.c, c, (s.x - 1) * (s.y - 1))
  {
    var x' := ModelConfig.Clamp(EASY.x, x, HARD.x);
    var y' := ModelConfig.Clamp(EASY.y, y, HARD.y);
    assert (x' - 1) * (y' - 1) >= 10 * 9;
    BoardSetting(x', y', ModelConfig.Clamp(EASY.c, c, (x' - 1) * (y' - 1)))
  }

  /** The two revisions normalise identically; they differ only in the kind tag. */
  lemma NewNormalizedAgrees(x: nat, y: nat, c: nat)
    ensures var s := NewNormalized(x, y, c);
            var t := ModelConfig.NewCustom(x, y, c);
            s.x == t.x && s.y == t.y && s.c == t.c
    ensures ModelConfig.WellFormed(x, y, c) ==> NewNormalized(x, y, c) == BoardSetting(x, y, c)
  {
  }

  lemma PresetsAgree()
    ensures EASY.x == ModelConfig.EASY.x && EASY.y == ModelConfig.EASY.y && EASY.c == ModelConfig.EASY.c
    ensures NORMAL.x == ModelConfig.NORMAL.x && NORMAL.y == ModelConfig.NORMAL.y && NORMAL.c == ModelConfig.NORMAL.c
    ensures HARD.x == ModelConfig.HARD.x && HARD.y == ModelConfig.HARD.y && HARD.c == ModelConfig.HARD.c
    ensures forall s :: s in [EASY, NORMAL, HARD] ==> ModelConfig.WellFormed(s.x, s.y, s.c)
  {
  }

  /** The configuration object carries no state of its own. */
  datatype Config = Config

  /** The board setting of the configuration: always the easy preset, the default of the
      newer revision, which normalisation keeps. */
  function BoardSettingOf(config: Config): (s: BoardSetting)
    ensures s == EASY
    ensures var d := ModelConfig.DefaultBoardSetting(); s.x == d.x && s.y == d.y && s.c == d.c
    ensures ModelConfig.WellFormed(s.x, s.y, s.c) && NewNormalized(s.x, s.y, s.c) == s
  {
    EASY
  }
}
