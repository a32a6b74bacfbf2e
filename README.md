# charlesmine in Dafny

A verified model of the core of charlesmine, a minesweeper game played on a field of
interlocking triangles. Each block has the shape of a triangle pointing up or down,
alternating along a row. Each block touches twelve others: two on each side in its row,
three in the row above, three in the row below, and two more across its long edge.

The model covers five areas:

- **The board engine** (`board.dfy`, `model.dfy`; src/model.rs):
  - Starting a game places the mines away from the first click.
  - Opening a block either reveals its adjacent-mine number or explodes the mine.
  - A chord opens the neighbours of an open block whose number matches its marks, and
    floods further from every neighbour whose number is 0.
  - Marks cycle Normal → MarkedMine → MarkedQuestionable → Normal.
  - The engine keeps the unopened count and the mark count, and decides whether the game
    is won or lost.
  - The adjacent-mine number is memoised in the block.
- **The sprite arithmetic** (`view_assets.dfy`; src/view_assets.rs and its older copy
  src/assets.rs): which cell of which sprite sheet draws a digit, a face of the new-game
  button or a block.
- **The window layout** (`view.dfy`; src/view.rs and its older copy src/layout.rs):
  - where the two counters, the button and the field go;
  - the values the counters show and the three-digit panel loop;
  - the pressed and captured state;
  - the zoom ratio;
  - hit testing, which maps a mouse position to the button, a block or nothing.
- **Board settings** (`model_config.dfy`, `config.dfy`; src/model_config.rs and src/config.rs):
  the presets and the clamping of custom sizes.
- **Game modes** (`model_gamemode.dfy`; src/model_gamemode.rs): the mode tests and saving a
  board's mine layout.

Where the source mutates an object, the model has a class whose methods update fields:

- `BoardEngine.Board` for the board;
- `View.LayoutState` for the pressed state;
- `ModelGameMode.Board` for the part of the newer board that saving a layout uses.

The loops of the engine (counting neighbours, the flood queue, the end-of-game marking) are
methods on a value copy of the board's fields (`BoardEngine.State`). Each of them is proved
against a specification predicate:

- `FloodFrom` says which blocks a chord opens.
- `SettledBy` says how the game ends after a chord.
- `BlastOutcome` gives the whole effect of a chord.
- `OpenOutcome` gives the whole effect of a click.
- `StartedFrom` describes the first click.

The class methods call these and write the fields back. `ValidState` (the class's
`Valid()`) is the consistency the engine keeps:

- the mark counter counts the MarkedMine blocks, plus the marks wiped when the game
  started (the first click clears the blocks but keeps the counter);
- the unopened counter counts the blocks not yet open, except after a death by opening a
  mine, which may leave it one higher;
- a Ready board has nothing open, and a won board has `count` unopened blocks, all marked;
- a started board holds exactly its mine count;
- every memoised number is a fresh count.

Randomness and the clock are inputs:

- Mine placement reads a sequence of draws in `[0, rows*cols - 2]`, each shifted past the
  clicked block as the source does. The mines are the first `count` distinct indices named.
- Every "now" is an integer timestamp in seconds passed by the caller.

## Model

| member | source | states |
|---|---|---|
| Model.SurroundingBlocks | src/model.rs:185-212 | a block has exactly twelve neighbour positions |
| Model.ShapesAlternate | src/model.rs:156-161 | a block is RevDeltaLike exactly when row + column is even, so horizontally and vertically adjacent blocks have opposite shapes |
| Model.ShapeOf | src/model.rs:156-161 | a block is RevDeltaLike exactly when row + column is even |
| Model.SurroundingBlocksShape | src/model.rs:185-212 | the twelve positions are pairwise distinct and exclude the block itself; the long-edge pair is in the row below for DeltaLike and above for RevDeltaLike |
| Model.SurroundingIsTouches | src/model.rs:185-212 | a position is a neighbour exactly when it is one of ±1, ±2 columns in the same row, within one column in the rows above and below, or ±2 columns across the long edge |
| Model.TouchesSymmetric | src/model.rs:185-212 | the neighbourhood relation in its arithmetic form is symmetric |
| Model.SurroundingSymmetric | src/model.rs:185-212 | q is a neighbour of p exactly when p is a neighbour of q |
| Model.IsSurrounding | src/model.rs:163-183 | the chord-highlight test holds exactly for the block itself and its twelve neighbours |
| Model.IsSurroundingSymmetric | src/model.rs:163-183 | the chord-highlight test is symmetric in its two positions |
| Model.Idx | src/model.rs:111-113 | the flat index of an in-range position is below rows*cols |
| Model.IdxDivMod | src/model.rs:111-113 | the flat index decodes back to its row and column |
| Model.InRangeOf | src/model.rs:214-216 | the filter keeps exactly the neighbour positions inside the board, in order |
| Model.NumberAtRange | src/model.rs:237-259 | the adjacent-mine number is None exactly on a mine and otherwise at most 12 |
| Model.MemoSound | src/model.rs:250-258 | storing the number keeps every memo equal to a fresh count, changes no mine and no status, and a second query changes nothing |
| Model.MarkRemaining | src/model.rs:225-234 | mines and memos are kept, Open blocks stay Open, and every other block ends MarkedMine |
| Model.MarkRemainingCounts | src/model.rs:225-234 | after the end-of-game marking the MarkedMine count grows by the Normal and MarkedQuestionable counts, which drop to zero, and the Open count is kept |
| Model.Rotated | src/model.rs:369-391 | a rotation changes the mark of every unopened block and never opens or closes a block |
| Model.MarkDelta | src/model.rs:369-391 | the mark counter changes by one rotation exactly as the number of MarkedMine blocks does |
| Model.RotateCycle | src/model.rs:369-391 | the mark cycle has period three on unopened blocks, never opens a block, and its counter changes cancel over a cycle |
| Model.DisplayKindOf | src/model.rs:393-463 | how each block is drawn, stated as an if-and-only-if per kind: numbers only on open safe blocks, exploded mine on an opened mine, wrong and missed marks only after a death, pressed only for Normal blocks under the focus (or its surrounding on a chord) while the game is not over, and never PushMarkedQuestionable |
| Model.GameButtonKindOf | src/model.rs:465-477 | the button shows the outcome of a finished or lost game, otherwise Pushed exactly while pressed; never Danger |
| BoardEngine.Skip | src/model.rs:139-141 | a draw is shifted past the clicked index, so it never names it |
| BoardEngine.PlaceMines | src/model.rs:129-151 | the wiped blocks get `count` mines at the first distinct indices the draws name, never at the clicked block; every block is unopened with no stored number |
| BoardEngine.SampleMines | src/model.rs:138-151 | the sampling loop stops after the first `k` draws, which name `count` distinct indices, and the mines are exactly those indices |
| BoardEngine.PlacementDetermined | src/model.rs:125-154 | the draws determine the mine set, and the clicked block is never mined |
| BoardEngine.FloodDetermined | src/model.rs:289-318 | any two floods that satisfy the flood specification from the same block open the same blocks |
| BoardEngine.ChordWithCorrectMarksIsSafe | src/model.rs:275-318 | when the chord rule fires and every MarkedMine neighbour really is a mine, the flood opens no mine |
| BoardEngine.CorrectChordNeverDies | src/model.rs:261-327 | a chord with correct marks leaves a Going game Going or Finished |
| BoardEngine.UnmarkedChordIsSafe | src/model.rs:261-327 | a chord on a 0 with no marks anywhere never loses the game |
| BoardEngine.FirstOpenNeverDies | src/model.rs:329-367 | the click that starts a game never loses it, including the chord that follows a 0 |
| BoardEngine.OpenKeepsValid | src/model.rs:344-346 | opening a safe Normal or MarkedQuestionable block and counting it off keeps the counters consistent |
| BoardEngine.OpenMineKeepsValid | src/model.rs:358-364 | opening a mine ends the game and keeps the state consistent with the unopened count left as it was |
| BoardEngine.MemoNumber | src/model.rs:237-259 | the query returns the adjacent-mine number (None on a mine, reusing a stored number) and stores it |
| BoardEngine.PushInRange | src/model.rs:289-295 | the push loop appends exactly the in-range neighbour positions, in order |
| BoardEngine.Flood | src/model.rs:297-318 | the queue loop opens exactly the blocks of the flood specification, counts each off, and reports an explosion exactly when one of them holds a mine |
| BoardEngine.CountMarked | src/model.rs:275-283 | the loop counts the MarkedMine blocks among the in-range neighbours |
| BoardEngine.FinishMarks | src/model.rs:225-234 | the loop marks every remaining block and adds one mark per changed block |
| BoardEngine.Settle | src/model.rs:319-326 | a Going board with as many unopened blocks as mines is won with the rest marked; otherwise it dies if a mine was opened; the state stays consistent |
| BoardEngine.Blast | src/model.rs:261-327 | the chord leaves a finished or lost board, or a block that is not open, as it was; stores the number only when the rule does not fire; otherwise floods and settles |
| BoardEngine.OpenAt | src/model.rs:338-366 | the click on a Going board opens a Normal or MarkedQuestionable block; a mine ends the game, a safe block is counted off and may win, and a 0 chords |
| BoardEngine.Board.constructor | src/model.rs:78-87 | a new board is Ready with every block unopened and unmined and nothing counted |
| BoardEngine.Board.FromConfig | src/model.rs:73-76 | a board built from the configuration is the easy 10×11 board with 10 mines |
| BoardEngine.Board.BlockDisplayNumber | src/model.rs:237-259 | the method form of the memoised adjacent-mine query |
| BoardEngine.Board.PrepareForFinish | src/model.rs:225-234 | the blocks become their end-of-game marking, the counter grows by the new marks, and the board stays consistent |
| BoardEngine.Board.StartGameWith | src/model.rs:125-154 | the blocks are wiped and `count` mines are placed at the first distinct indices the draws name, never on the clicked block; the kept mark counter is recorded as wiped marks, so the board stays consistent |
| BoardEngine.Board.RotateBlockState | src/model.rs:369-391 | on a board whose game is not over, one step of the mark cycle with its counter change; otherwise nothing changes |
| BoardEngine.Board.BlockDisplayKind | src/model.rs:393-463 | the block is drawn as the display table says for its number, and the number is memoised |
| BoardEngine.Board.BlastBlock | src/model.rs:261-327 | the chord's whole effect on the board's fields, keeping the board consistent |
| BoardEngine.Board.OpenBlock | src/model.rs:329-367 | a Ready board is started first; then the click's whole effect; the first click of a game never loses it |
| ViewAssets.DigitIndex | src/view_assets.rs:129-132 | digits 0–9 are drawn from cells 11 down to 2, never the minus cell (same in src/assets.rs:183-186) |
| ViewAssets.DigitIndexRoundTrip | src/view_assets.rs:125-132 | digit cells and digits correspond one to one |
| ViewAssets.DigitSpriteCoord | src/view_assets.rs:136-141 | a 13×23 cell, which lies on the twelve-cell digit sheet exactly for cells 0 to 11 (same in src/assets.rs:190-193) |
| ViewAssets.DigitSpritesDisjoint | src/view_assets.rs:125-141 | different digits, and a digit and the minus sign, are cut from disjoint cells |
| ViewAssets.ButtonIndex | src/view_assets.rs:170-178 | each of the five button faces has a cell below 5 (same in src/assets.rs:223-231) |
| ViewAssets.ButtonIndexBijective | src/view_assets.rs:170-178 | faces and button cells correspond one to one |
| ViewAssets.ButtonSpriteCoord | src/view_assets.rs:182-187 | a 24×24 cell, which lies on the five-face button sheet exactly for cells 0 to 4 (same in src/assets.rs:235-238) |
| ViewAssets.ButtonSpritesDisjoint | src/view_assets.rs:170-187 | different faces are cut from disjoint cells |
| ViewAssets.BlockAreaSize | src/view_assets.rs:221-226 | the field is at least one block wide and high (same in src/assets.rs:274-279) |
| ViewAssets.BlockPos | src/view_assets.rs:265-270 | blocks are drawn at or after the field's corner (same in src/assets.rs:316-319) |
| ViewAssets.BlockInsideArea | src/view_assets.rs:221-270 | every block of the board is drawn inside the field |
| ViewAssets.BlockPosSteps | src/view_assets.rs:265-270 | neighbouring blocks of a row are 13 pixels apart and rows are 20 pixels apart |
| ViewAssets.BlockKindRow | src/view_assets.rs:273-283 | OpenWithNumber(n) is row 19 − n, the other kinds rows 0–6 and PushNormal row 19 |
| ViewAssets.BlockSpriteIndex | src/view_assets.rs:272-292 | the cell index is below 40 and even exactly for DeltaLike blocks (same in src/assets.rs:321-340) |
| ViewAssets.BlockSpriteCoord | src/view_assets.rs:295-303 | a 24×20 cell in the left column exactly for even indices, which lies on the two-column, twenty-row sheet exactly for cells 0 to 39 (same in src/assets.rs:345-349) |
| ViewAssets.BlockSpritesDisjoint | src/view_assets.rs:295-303 | different cells of the block sheet share no pixel |
| ViewAssets.BlockSpriteDecode | src/view_assets.rs:272-303 | the cell of (shape, kind) is in the shape's column and the kind's row |
| ViewAssets.BlockKindRowInjective | src/view_assets.rs:273-283 | kinds with numbers up to 12 share a row only when equal, or when they are the empty open block and the pressed Normal block |
| ViewAssets.DisplayedKindsDrawable | src/view_assets.rs:272-292 | every kind the display table produces has a cell, with numbers in rows 7–19 |
| View.NewLayoutData | src/view.rs:61-89 | the window is the field plus its edges and the banner; the right counter ends 15 pixels from the right edge; the button is centred, rounding left (same in src/layout.rs:50-83) |
| View.LayoutFits | src/view.rs:61-89 | counters and button sit above the field, and field, right counter and button lie inside the window |
| View.ButtonClearOfCounters | src/view.rs:61-89 | the button lies clear of the left counter exactly from eight columns on, and then also clear of the right one |
| View.MineCounterShows | src/view.rs:230-232 | the mine counter's panel reads back mines minus marks when that lies in −99..999, and shows the minus sign exactly when more blocks are marked than there are mines (same in src/layout.rs:220-222) |
| View.DisplayValueTime | src/view.rs:234-252 | the timer is 0 before the game, at most 999, and the elapsed seconds capped at 999 while it is on (same in src/layout.rs:224-242) |
| View.TimerFrozenWhenOver | src/view.rs:234-252 | after the game the timer shows the game's duration whatever the clock says |
| View.TimerMonotone | src/view.rs:234-252 | the timer never goes back while the clock does not |
| View.PanelSprites | src/view.rs:186-212 | the three cells show a minus sign first exactly for negative values, then the hundreds (if not negative), tens and units digits of the absolute value (same in src/layout.rs:154-177) |
| View.ModDivIsDigit | src/view.rs:199-200 | the source's modulo-then-divide expression is the decimal digit |
| View.PanelReadsBack | src/view.rs:186-212 | the cells read back as the value for 0..999 and −99..−1, and otherwise as its last digits |
| View.LayoutState.constructor | src/view.rs:263-277 | nothing is pressed or captured at first |
| View.LayoutState.SetButtonPressed | src/view.rs:494-496 | sets the button's pressed flag (same in src/layout.rs:347-349) |
| View.LayoutState.SetWindowCaptured | src/view.rs:498-500 | sets the captured flag |
| View.LayoutState.SetBlockPressed | src/view.rs:502-504 | records the pressed block (same in src/layout.rs:351-353) |
| View.LayoutState.UnsetBlockPressed | src/view.rs:506-510 | releases the pressed block only when it is the one given (same in src/layout.rs:355-359) |
| View.Ratio | src/view.rs:325-333 | the zoom ratios are 1, 2 and 3 |
| View.TruncDiv | src/view.rs:316-322 | division rounds toward zero: the remainder is smaller than the divisor and has the dividend's sign |
| View.ZoomSize | src/view.rs:308-314 | ratio 1 leaves sizes unchanged |
| View.UnzoomPoint | src/view.rs:316-322 | ratio 1 leaves points unchanged |
| View.ZoomRoundTrip | src/view.rs:308-322 | every window pixel of a zoomed pixel at non-negative coordinates unzooms back to it, and zooming scales sizes by the ratio |
| View.FloorDiv | src/view.rs:444-450 | the source's floor division is Euclidean division, so the quotient q of a positive divisor d satisfies d·q ≤ lhs < d·q + d (same in src/layout.rs:316-322) |
| View.HitTest | src/view.rs:432-491 | the button wins when it contains the unzoomed point; otherwise the result is the leftmost block of the point's row whose shape covers the point, or nothing exactly when no block covers it (same in src/layout.rs:306-345, without zoom) |
| View.ScanRow | src/view.rs:457-490 | for a point in the row's band, the first block of the row whose cell and shape cover the point, or nothing exactly when no block of the row covers it |
| ModelConfig.Clamp | src/model_config.rs:42-47 | the clamped value lies in the range and equals the input when in range |
| ModelConfig.NewCustom | src/model_config.rs:42-47 | columns are clamped to 11..41, rows to 10..15, and mines to 10..(columns−1)(rows−1) using the clamped size |
| ModelConfig.NewCustomFixesWellFormed | src/model_config.rs:42-47 | in-range settings come back unchanged, so clamping is idempotent |
| ModelConfig.NewCustomCorners | src/model_config.rs:42-47 | every request at or below the easy size gives the easy board, and every request at or beyond the hard size with 560 mines or more gives 41×15 with 560 mines |
| ModelConfig.PresetsWellFormed | src/model_config.rs:23-40 | the easy, normal and hard presets are within the clamping bounds |
| ModelConfig.DefaultBoardSetting | src/model_config.rs:50-54 | the default is the easy preset, the smallest well-formed setting, kept by the custom clamping |
| ModelConfig.NewConfig | src/model_config.rs:56-74 | a new configuration holds a well-formed easy board that the clamping keeps, and allows question marks |
| Config.NewNormalized | src/config.rs:27-32 | the older clamping, with the same bounds |
| Config.NewNormalizedAgrees | src/config.rs:27-32 | the older and the newer clamping agree, and in-range settings are kept |
| Config.PresetsAgree | src/config.rs:11-25 | the older presets equal the newer ones and are within the bounds |
| Config.BoardSettingOf | src/config.rs:52-55 | the configuration always yields the easy preset, which is the newer revision's default and is kept by normalisation |
| ModelGameMode.IsNormal | src/model_gamemode.rs:51-56 | a mode is normal exactly when it neither records nor carries a saved layout |
| ModelGameMode.IsPredefined | src/model_gamemode.rs:58-63 | a mode is predefined exactly when it carries a saved layout and is not a playback |
| ModelGameMode.IsRecording | src/model_gamemode.rs:65-70 | a mode records exactly when it is not normal and carries no saved layout |
| ModelGameMode.IsPlayback | src/model_gamemode.rs:72-77 | a mode plays back exactly when it carries a saved layout and is not merely predefined |
| ModelGameMode.ExactlyOneMode | src/model_gamemode.rs:51-77 | every game mode passes exactly one of the four mode tests |
| ModelGameMode.BoardSavedOf | src/model_gamemode.rs:79-86 | a saved layout is present exactly for the predefined and playback modes, and is theirs |
| ModelGameMode.ImportFrom | src/model_gamemode.rs:16-31 | the saved layout has the board's size; a pinned list is taken as it is, otherwise the game's list or else the fresh allocation; afterwards the board's pinned list is the saved one, and nothing else changes |
| ModelGameMode.ImportIdempotent | src/model_gamemode.rs:16-31 | importing twice saves the same layout and leaves the board as the first import left it |
| ModelGameMode.ImportKeepsPinned | src/model_gamemode.rs:19-20 | a board with a pinned list is not modified |
| ModelGameMode.Board.UpdateFixedMinePosList | src/model_gamemode.rs:24 | pins the given list |
| ModelGameMode.ImportFromBoard | src/model_gamemode.rs:16-31 | the method's result and the board afterwards are those `ImportFrom` describes |

## Left out

- Drawing, bitmaps, windows, device contexts and message handling (src/view.rs beyond the
  layout arithmetic, src/ui_apiw.rs, src/controller.rs, src/main.rs): these are I/O.
- View.HitTest: the per-pixel shape test of a block sprite reads the bitmap. It is a
  parameter `mask`, and its failure path (an `expect` on a bitmap error) is not modelled.
- The rectangle test of the button is taken to include the left and top edges and exclude
  the right and bottom ones.
- BoardEngine.Board.OpenBlock: the source reads the clock separately for the start of the
  game and for its end. The model takes a single `now` for one click.
- BoardEngine.Board.StartGameWith: the random generator is replaced by the sequence of draws.
  The source never stops when the mine count is 0 or when the draws never name enough distinct
  blocks. The model therefore requires draws that name at least `count ≥ 1` distinct blocks.
- The mark counter keeps marks placed before the first click, although starting the game wipes
  those blocks. The model reproduces this, and `Valid()` accounts for the wiped marks.
- Opening a mine does not decrement the unopened count. The model reproduces this.
- Interior mutability (`Cell` for the memo and the layout state, `Rc` for the shared mine list)
  is modelled as plain fields and values. The sharing itself is not modelled, and equal values
  stand for the same list.
- Getters (`size`, `goal_mark_count`, `rest_count`, `cur_mark_count`, `status`, `block`,
  `block_status`) are field reads of `BoardEngine.Board`.
- `Board::new` reads the board setting through `Config`. `BoardEngine.Board.FromConfig` models
  this with the easy preset that `Config::board_setting` always returns.
- The newer board's operations that src/model_gamemode.rs calls (`fixed_mine_pos_list`,
  `snapshot_mine_pos_list`, `allocate_mine_pos_list`, `update_fixed_mine_pos_list`) are not
  in the shown model.rs. They are represented by `ModelGameMode.Board`:
  - a pinned-list field, with `update_fixed_mine_pos_list` as the setter;
  - the game's list as a field;
  - the allocation as a parameter.
- `BoardSaved::import_from_file` and `export_to_file` are unimplemented in the source. The
  recording file handle and the recorded commands of the game modes are I/O and are not modelled.
- `ZoomRatio` is used by src/view.rs but is not defined in the shown src/model_config.rs.
  `View.ZoomRatio` stands in for it with the three ratios that src/view.rs maps.
- Pixel coordinates are unbounded integers. The source's `isize` and `usize` overflows at
  enormous window sizes are not modelled.
- Where the subtractions would underflow, the model states that instead:
  - `LayoutData::new` needs at least two columns;
  - `BlockSpriteSheet::calc_block_area_size` needs one row and one column;
  - `sprite_index` needs a number of at most 19.
- ViewAssets.BlockKindRowInjective: stated for numbers up to 12 (the largest a block can
  show). Numbers 13–19 would reuse the rows of the kinds 0–6.
- View.DisplayValueTime: there is no lower bound. A clock set back before the start of
  the game gives a negative timer, as in the source.
- The memo of the adjacent-mine number is stated as "every stored number equals a fresh count".
  The model does not state which blocks have a stored number after a chord, only that stored
  numbers are never changed, only filled in.

Where the descriptions of the game and the code differ, the model follows the code:

- The chord-highlight test covers the block and its twelve neighbours.
- A MarkedQuestionable block is always drawn as MarkedQuestionable.
- The new-game button shows the outcome of a finished game even while it is pressed.
