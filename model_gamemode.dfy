/**
  Game modes and saved board layouts (src/model_gamemode.rs).

  A saved layout is a board size and the list of mine positions (flat indices). The file
  belongs to a newer revision of the board than src/model.rs; of that board it uses only
  the size and three operations on mine lists, so the board is represented here by those:
  the pinned list (`fixed_mine_pos_list`), the list of the game in progress
  (`snapshot_mine_pos_list`, absent before the first click) and a fresh random allocation
  (`allocate_mine_pos_list`), which is a parameter.
 */
module ModelGameMode {
  import opened Wrappers

  datatype BoardSaved = BoardSaved(boardSize: (nat, nat), minePos: seq<nat>)

  /** How the game is played: freely, while recording, on a predefined layout, or replaying
      a recording of a predefined layout. Times are seconds; the recording file and the
      recorded commands are not modelled. */
  datatype GameMode =
    | Normal
    | GameRecording(start: int)
    | BoardPredefined(saved: BoardSaved)
    | GamePlayback(saved: BoardSaved, playbackStart: int)

  /** The free game: nothing is recorded and no saved layout is played. */
  predicate IsNormal(m: GameMode): (r: bool)
    ensures r <==> !m.GameRecording? && BoardSavedOf(m).None?
  {
    m.Normal?
  }

  /** A game on a saved layout that is not being replayed. */
  predicate IsPredefined(m: GameMode): (r: bool)
    ensures r <==> BoardSavedOf(m).Some? && !m.GamePlayback?
  {
    m.BoardPredefined?
  }

  /** A free game whose moves are being recorded. */
  predicate IsRecording(m: GameMode): (r: bool)
    ensures r <==> !m.Normal? && BoardSavedOf(m).None?
  {
    m.GameRecording?
  }

  /** A replay of a recording, which always comes with its saved layout. */
  predicate IsPlayback(m: GameMode): (r: bool)
    ensures r <==> BoardSavedOf(m).Some? && !m.BoardPredefined?
  {
    m.GamePlayback?
  }

  /** Number of the four mode tests that hold. */
  function ModesHolding(m: GameMode): nat {
    (if IsNormal(m) then 1 else 0) + (if IsPredefined(m) then 1 else 0)
    + (if IsRecording(m) then 1 else 0) + (if IsPlayback(m) then 1 else 0)
  }

  /** Every mode passes exactly one of the four tests. */
  lemma ExactlyOneMode(m: GameMode)
    ensures ModesHolding(m) == 1
  {
  }

  /** The layout a mode plays on: present exactly for the predefined and playback modes. */
  function BoardSavedOf(m: GameMode): (r: Option<BoardSaved>)
    ensures r.Some? <==> m.BoardPredefined? || m.GamePlayback?
    ensures r.Some? ==> r.value == m.saved
  {
    match m
    case Normal => None
    case GameRecording(_) => None
    case BoardPredefined(b) => Some(b)
    case GamePlayback(b, _) => Some(b)
  }

  /** What `import_from_board` sees of a board. */
  datatype BoardView = BoardView(size: (nat, nat), fixedMinePos: Option<seq<nat>>, snapshot: Option<seq<nat>>)

  /** The layout saved from a board and the board afterwards: an already pinned list is
      taken as it is; otherwise the list of the game in progress, or failing that the fresh
      `allocation`, is saved and pinned on the board. Only the pinned list can change. */
  function ImportFrom(b: BoardView, allocation: seq<nat>): (r: (BoardSaved, BoardView))
    ensures r.0.boardSize == b.size
    ensures r.1 == b.(fixedMinePos := Some(r.0.minePos))
    ensures b.fixedMinePos.Some? ==> r.0.minePos == b.fixedMinePos.value
    ensures b.fixedMinePos.None? && b.snapshot.Some? ==> r.0.minePos == b.snapshot.value
    ensures b.fixedMinePos.None? && b.snapshot.None? ==> r.0.minePos == allocation
  {
    match b.fixedMinePos
    case Some(pos) => (BoardSaved(b.size, pos), b)
    case None =>
      var list := if b.snapshot.Some? then b.snapshot.value else allocation;
      (BoardSaved(b.size, list), b.(fixedMinePos := Some(list)))
  }

  /** Importing from a board twice saves the same layout, whatever the second allocation,
      and the second import leaves the board as the first left it. */
  lemma ImportIdempotent(b: BoardView, allocation1: seq<nat>, allocation2: seq<nat>)
    ensures var (saved1, b1) := ImportFrom(b, allocation1);
            ImportFrom(b1, allocation2) == (saved1, b1)
  {
  }

  /** A board whose list is already pinned is left as it is. */
  lemma ImportKeepsPinned(b: BoardView, allocation: seq<nat>)
    requires b.fixedMinePos.Some?
    ensures ImportFrom(b, allocation).1 == b
  {
  }

  /** The board of the newer revision, reduced to what saving a layout touches. */
  class Board {
    const size: (nat, nat)
    var fixedMinePos: Option<seq<nat>>
    var snapshot: Option<seq<nat>>

    constructor (rows: nat, cols: nat, snapshot: Option<seq<nat>>)
      ensures size == (rows, cols) && fixedMinePos == None && this.snapshot == snapshot
    {
      this.size := (rows, cols);
      this.fixedMinePos := None;
      this.snapshot := snapshot;
    }

    function View(): BoardView
      reads this
    {
      BoardView(size, fixedMinePos, snapshot)
    }

    /** Pins a mine list, or unpins with `None`. */
    method UpdateFixedMinePosList(list: Option<seq<nat>>)
      modifies this`fixedMinePos
      ensures fixedMinePos == list
    {
      fixedMinePos := list;
    }
  }

  /** Saves the layout of `board`, pinning it on the board if it was not yet pinned. */
  method ImportFromBoard(board: Board, allocation: seq<nat>) returns (saved: BoardSaved)
    modifies board`fixedMinePos
    ensures (saved, board.View()) == ImportFrom(old(board.View()), allocation)
  {
    var boardSize := board.size;
    var minePos;
    if board.fixedMinePos.Some? {
      minePos := board.fixedMinePos.value;
    } else {
      var list := if board.snapshot.Some? then board.snapshot.value else allocation;
      board.UpdateFixedMinePosList(Some(list));
      minePos := list;
    }
    saved := BoardSaved(boardSize, minePos);
  }
}
