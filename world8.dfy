// The world of the ice version: it holds the current level, turns key presses into
// moves, settling and undo, and ends once the level is won or lost.
module World8 {
  import opened Basics
  import opened Cells8
  import opened Board8
  import opened Level8
  import opened Moves8
  import Grid

  /** The level a key press leads to: an arrow key moves and then settles the holes, "u"
      undoes, any other key leaves the level alone. */
  function KeyLevel(lv: Level, key: string): (r: Level)
    requires Rectangular(lv.board)
    ensures KeyToDirection(key).None? && key != "u" ==> r == lv
  {
    match KeyToDirection(key)
    case Some(d) => SettledLevel(MovePlayerBounded(lv, d))
    case None => if key == "u" then UndoMove(lv) else lv
  }

  /** An arrow key followed by "u" gives back the board and the player position from
      before the arrow key, whenever the arrow key changed the level. */
  lemma KeyThenUndo(lv: Level, key: string)
    requires Rectangular(lv.board) && KeyToDirection(key).Some?
    requires MovePlayerBounded(lv, KeyToDirection(key).value) != lv
    ensures Rectangular(KeyLevel(lv, key).board)
    ensures var u := KeyLevel(KeyLevel(lv, key), "u");
      u.board == lv.board && u.playerPos == lv.playerPos && u.steps == lv.steps + 2
  {
    SettledIsSettled(MovePlayerBounded(lv, KeyToDirection(key).value).board);
    UndoAfterMove(lv, KeyToDirection(key).value);
  }

  /** An arrow key that moves nothing still settles the holes; "u" after it goes back to
      the previous level of the level before the key, with one more step, as after any
      undo. */
  lemma BlockedKeyThenUndo(lv: Level, key: string)
    requires Rectangular(lv.board) && KeyToDirection(key).Some?
    requires MovePlayerBounded(lv, KeyToDirection(key).value) == lv
    ensures Rectangular(KeyLevel(lv, key).board)
    ensures var u := KeyLevel(KeyLevel(lv, key), "u");
      u.board == PrevOf(lv).board && u.playerPos == PrevOf(lv).playerPos && u.steps == lv.steps + 1
  {
    SettledIsSettled(lv.board);
  }

  /** On a freshly read level every arrow key followed by "u" gives back the level as read,
      holes unsettled, whether or not the key moved anything; the undo counts a step. */
  lemma RootKeyThenUndo(lv: Level, key: string)
    requires Rectangular(lv.board) && lv.prevLevel == Root && KeyToDirection(key).Some?
    ensures Rectangular(KeyLevel(lv, key).board)
    ensures var u := KeyLevel(KeyLevel(lv, key), "u");
      u.board == lv.board && u.playerPos == lv.playerPos && u.steps == KeyLevel(lv, key).steps + 1
  {
    if MovePlayerBounded(lv, KeyToDirection(key).value) == lv {
      BlockedKeyThenUndo(lv, key);
    } else {
      KeyThenUndo(lv, key);
    }
  }

  /** A box on a hole, blocked by the board edge: the arrow key settles it away, and "u"
      brings it back. */
  lemma RootBlockedScenario()
    ensures var lv := Level([[Cell(Normal, Player), Cell(Hole, Box)]], Posn(0, 0), Root, 0);
      && KeyLevel(lv, "right").board == [[Cell(Normal, Player), Cell(Normal, Blank)]]
      && KeyLevel(KeyLevel(lv, "right"), "u").board == lv.board
  {
    var lv := Level([[Cell(Normal, Player), Cell(Hole, Box)]], Posn(0, 0), Root, 0);
    assert MoveSwitches(lv, Right) == None;
    assert MovePlayerBounded(lv, Right) == lv;
    var s := Settled(lv.board);
    assert s[0][0] == Cell(Normal, Player) && s[0][1] == Cell(Normal, Blank);
    assert s[0] == [Cell(Normal, Player), Cell(Normal, Blank)];
    RootKeyThenUndo(lv, "right");
  }

  /** A key press keeps every level of the undo chain valid. */
  lemma KeyLevelValid(lv: Level, key: string)
    requires ValidLevel(lv)
    ensures ValidLevel(KeyLevel(lv, key))
  {
    match KeyToDirection(key)
    case Some(d) =>
      ValidLevelKept(lv, d);
      ValidLevelKept(MovePlayerBounded(lv, d), d);
    case None =>
      ValidLevelKept(lv, Up);
  }

  /** The Sokoban world; ended records that endOfWorld was called. */
  class Sokoban {
    var level: Level
    var ended: bool

    ghost predicate Valid()
      reads this
    {
      ValidLevel(level)
    }

    constructor (level: Level)
      requires ValidLevel(level)
      ensures Valid() && this.level == level && !ended
    {
      this.level := level;
      ended := false;
    }

    /** Sokoban.onKeyEvent: apply the key, then end the world if the level is won or lost. */
    method OnKeyEvent(key: string)
      requires Valid()
      modifies this
      ensures Valid()
      ensures level == KeyLevel(old(level), key)
      ensures ended == (old(ended) || AllTargetsMatched(level.board) || Grid.PlayerAbsent(level.board))
    {
      KeyLevelValid(level, key);
      var d := KeyToDirection(key);
      if d.Some? {
        ValidLevelKept(level, d.value);
        level := UpdateLevel(MovePlayerBounded(level, d.value));
      }
      if key == "u" {
        level := UndoMove(level);
      }
      var won := LevelWon(level);
      var lost := LevelLost(level);
      if won || lost {
        ended := true;
      }
    }
  }
}
