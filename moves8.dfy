// Movement in the ice version, with the slides stopped at the board edge, and what
// a move does to the board: it changes only the cells in the direction of travel,
// keeps the cached player position on the player, pushes, steps or stays, and agrees
// with Level.movePlayer whenever that returns.
module Moves8 {
  import opened Basics
  import opened Cells8
  import opened Board8
  import opened Level8
  import Grid

  // ------------------------------------------------------------ bounded movement

  /** Level.slideContent, except that a position off the board has nothing to slide. */
  function SlideContentBounded(lv: Level, pos: Posn, d: Direction): (r: Level)
    requires Rectangular(lv.board)
    ensures Rectangular(r.board) && |r.board| == |lv.board| && Width(r.board) == Width(lv.board)
    ensures r.playerPos == lv.playerPos && r.prevLevel == lv.prevLevel && r.steps == lv.steps
    decreases Remaining(lv.board, pos, d)
  {
    if !InBounds(lv.board, pos) then lv
    else
      var slideTo := MovePosn(pos, d);
      var cell := lv.board[pos.row][pos.col];
      if CanMoveTo(cell.content, slideTo, lv.board) && CellSlide(cell) then
        SlideContentBounded(SwitchLevel(lv, pos, slideTo, lv.playerPos, lv.prevLevel, lv.steps).value, slideTo, d)
      else lv
  }

  /** One cell of a player slide from p: a push of the content ahead, or a step, when the
      player stands on ice; None when the player does not slide on. */
  function PlayerSlideStep(lv: Level, p: Posn, d: Direction): (r: Option<Level>)
    requires Rectangular(lv.board) && InBounds(lv.board, p) && InBounds(lv.board, MovePosn(p, d))
    ensures r.Some? ==> Rectangular(r.value.board) && |r.value.board| == |lv.board| && Width(r.value.board) == Width(lv.board)
    ensures r.Some? ==> r.value.prevLevel == lv.prevLevel && r.value.steps == lv.steps
    ensures r.Some? ==> r.value.playerPos == MovePosn(p, d)
  {
    var slideTo := MovePosn(p, d);
    var pushTo := MovePosn(slideTo, d);
    var playerCell := lv.board[p.row][p.col];
    var slideCell := lv.board[slideTo.row][slideTo.col];
    if CanMoveTo(slideCell.content, pushTo, lv.board) && CellSlide(playerCell) then
      var pushed := SwitchLevel(lv, pushTo, slideTo, p, lv.prevLevel, lv.steps).value;
      Some(SwitchLevel(pushed, p, slideTo, slideTo, lv.prevLevel, lv.steps).value)
    else if CanMoveTo(playerCell.content, slideTo, lv.board) && CellSlide(playerCell) then
      Some(SwitchLevel(lv, p, slideTo, slideTo, lv.prevLevel, lv.steps).value)
    else None
  }

  /** Level.slidePlayer, except that the player stops at the board edge. */
  function SlidePlayerBounded(lv: Level, p: Posn, d: Direction): (r: Level)
    requires Rectangular(lv.board)
    ensures Rectangular(r.board) && |r.board| == |lv.board| && Width(r.board) == Width(lv.board)
    ensures r.prevLevel == lv.prevLevel && r.steps == lv.steps
    decreases Remaining(lv.board, p, d)
  {
    if !InBounds(lv.board, p) || !InBounds(lv.board, MovePosn(p, d)) then lv
    else match PlayerSlideStep(lv, p, d)
      case None => lv
      case Some(moved) => SlidePlayerBounded(moved, MovePosn(p, d), d)
  }

  /** The switches of Level.movePlayer before any slide: a push of the content ahead, or
      a step; None when the player can do neither. */
  function MoveSwitches(lv: Level, d: Direction): (r: Option<Level>)
    requires Rectangular(lv.board)
    requires InBounds(lv.board, lv.playerPos) && InBounds(lv.board, MovePosn(lv.playerPos, d))
    ensures r.Some? ==> Rectangular(r.value.board) && |r.value.board| == |lv.board| && Width(r.value.board) == Width(lv.board)
    ensures r.Some? ==> r.value.prevLevel == Prev(lv) && r.value.steps == lv.steps + 1
    ensures r.Some? ==> r.value.playerPos == MovePosn(lv.playerPos, d)
  {
    var moveTo := MovePosn(lv.playerPos, d);
    var pushTo := MovePosn(moveTo, d);
    var playerCell := lv.board[lv.playerPos.row][lv.playerPos.col];
    var pushable := lv.board[moveTo.row][moveTo.col];
    if CanMoveTo(pushable.content, pushTo, lv.board) then
      var pushed := SwitchLevel(lv, pushTo, moveTo, lv.playerPos, Prev(lv), lv.steps).value;
      Some(SwitchLevel(pushed, moveTo, lv.playerPos, moveTo, Prev(lv), lv.steps + 1).value)
    else if CanMoveTo(playerCell.content, moveTo, lv.board) then
      Some(SwitchLevel(lv, moveTo, lv.playerPos, moveTo, Prev(lv), lv.steps + 1).value)
    else None
  }

  /** Level.movePlayer with the edge of the board treated as a wall: a move that would
      leave the board stays, and a step onto the last cell ends there. */
  function MovePlayerBounded(lv: Level, d: Direction): (r: Level)
    requires Rectangular(lv.board)
    ensures Rectangular(r.board)
    ensures r == lv || (r.prevLevel == Prev(lv) && r.steps == lv.steps + 1)
  {
    var moveTo := MovePosn(lv.playerPos, d);
    if !InBounds(lv.board, lv.playerPos) || !InBounds(lv.board, moveTo) then lv
    else match MoveSwitches(lv, d)
      case None => lv
      case Some(moved) => SlidePlayerBounded(SlideContentBounded(moved, MovePosn(moveTo, d), d), moveTo, d)
  }

  // ------------------------------------------------------------ agreement with the source

  lemma {:induction false} SlideContentAgrees(lv: Level, pos: Posn, d: Direction)
    requires Rectangular(lv.board) && SlideContent(lv, pos, d).Ok?
    ensures SlideContent(lv, pos, d).value == SlideContentBounded(lv, pos, d)
    decreases Remaining(lv.board, pos, d)
  {
    var slideTo := MovePosn(pos, d);
    var cell := lv.board[pos.row][pos.col];
    if CanMoveTo(cell.content, slideTo, lv.board) && CellSlide(cell) {
      SlideContentAgrees(SwitchLevel(lv, pos, slideTo, lv.playerPos, lv.prevLevel, lv.steps).value, slideTo, d);
    }
  }

  lemma {:induction false} SlidePlayerAgrees(lv: Level, p: Posn, d: Direction)
    requires Rectangular(lv.board) && SlidePlayer(lv, p, d).Ok?
    ensures SlidePlayer(lv, p, d).value == SlidePlayerBounded(lv, p, d)
    decreases Remaining(lv.board, p, d)
  {
    var step := PlayerSlideStep(lv, p, d);
    if step.Some? {
      SlidePlayerAgrees(step.value, MovePosn(p, d), d);
    }
  }

  /** Wherever Level.movePlayer returns a level, the bounded move returns the same one. */
  lemma MovePlayerAgrees(lv: Level, d: Direction)
    requires Rectangular(lv.board) && MovePlayer(lv, d).Ok?
    ensures MovePlayer(lv, d).value == MovePlayerBounded(lv, d)
  {
    var moveTo := MovePosn(lv.playerPos, d);
    var step := MoveSwitches(lv, d);
    if step.Some? {
      SlideContentAgrees(step.value, MovePosn(moveTo, d), d);
      SlidePlayerAgrees(SlideContent(step.value, MovePosn(moveTo, d), d).value, moveTo, d);
    }
  }

  /** A step onto the last cell of a row raises out-of-bounds in Level.movePlayer (the
      slide that follows looks one cell past the edge); the bounded move completes it. */
  lemma EdgeStepRaises()
    ensures var lv := Level([[Cell(Normal, Player), Cell(Normal, Blank)]], Posn(0, 0), Root, 0);
      && MovePlayer(lv, Right) == Err(OutOfBounds)
      && MovePlayerBounded(lv, Right) == Level([[Cell(Normal, Blank), Cell(Normal, Player)]], Posn(1, 0), Prev(lv), 1)
  {
    var lv := Level([[Cell(Normal, Player), Cell(Normal, Blank)]], Posn(0, 0), Root, 0);
    var moved := SwitchLevel(lv, Posn(1, 0), Posn(0, 0), Posn(1, 0), Prev(lv), 1).value;
    SwappedCells(lv.board, Posn(1, 0), Posn(0, 0));
    assert moved.board[0] == [Cell(Normal, Blank), Cell(Normal, Player)];
    assert moved.board == [[Cell(Normal, Blank), Cell(Normal, Player)]];
  }

  /** A player on the last cell of a row moving outwards raises out-of-bounds in
      Level.movePlayer (it reads the cell ahead with findCell); the bounded move stays. */
  lemma EdgeMoveOutRaises()
    ensures var lv := Level([[Cell(Normal, Player)]], Posn(0, 0), Root, 0);
      && MovePlayer(lv, Right) == Err(OutOfBounds)
      && MovePlayerBounded(lv, Right) == lv
  {
  }

  // ------------------------------------------------------------ what a move changes

  lemma {:induction false} SlideContentFrame(lv: Level, pos: Posn, d: Direction)
    requires Rectangular(lv.board)
    ensures Frame(lv.board, SlideContentBounded(lv, pos, d).board, pos, d)
    decreases Remaining(lv.board, pos, d)
  {
    if InBounds(lv.board, pos) {
      var slideTo := MovePosn(pos, d);
      var cell := lv.board[pos.row][pos.col];
      if CanMoveTo(cell.content, slideTo, lv.board) && CellSlide(cell) {
        var next := SwitchLevel(lv, pos, slideTo, lv.playerPos, lv.prevLevel, lv.steps).value;
        SwapFrame(lv.board, pos, slideTo, pos, d);
        SlideContentFrame(next, slideTo, d);
        FrameTrans(lv.board, next.board, SlideContentBounded(next, slideTo, d).board, pos, slideTo, d);
      }
    }
  }

  /** The two switches of a push from p in direction d: the content ahead moves one cell
      on and the content at p takes its place; the order of the second switch is immaterial. */
  lemma PushSwitches(b: Board, p: Posn, d: Direction)
    requires Rectangular(b) && InBounds(b, p)
    requires InBounds(b, MovePosn(p, d)) && InBounds(b, MovePosn(MovePosn(p, d), d))
    ensures var q := MovePosn(p, d);
      var t := MovePosn(q, d);
      var m := Swapped(Swapped(b, t, q), q, p);
      && m == Swapped(Swapped(b, t, q), p, q)
      && Frame(b, m, p, d)
      && m[q.row][q.col].content == b[p.row][p.col].content
      && m[t.row][t.col].content == b[q.row][q.col].content
      && m[p.row][p.col].content == b[t.row][t.col].content
  {
    var q := MovePosn(p, d);
    var t := MovePosn(q, d);
    var s := Swapped(b, t, q);
    SwappedCells(b, t, q);
    SwappedCells(s, q, p);
    SwappedSym(s, q, p);
    SwapFrame(b, t, q, p, d);
    SwapFrame(s, q, p, p, d);
    FrameTrans(b, s, Swapped(s, q, p), p, p, d);
  }

  /** The switch of a step from p in direction d. */
  lemma StepSwitch(b: Board, p: Posn, d: Direction)
    requires Rectangular(b) && InBounds(b, p) && InBounds(b, MovePosn(p, d))
    ensures var q := MovePosn(p, d);
      var m := Swapped(b, q, p);
      && m == Swapped(b, p, q)
      && Frame(b, m, p, d)
      && m[q.row][q.col].content == b[p.row][p.col].content
      && m[p.row][p.col].content == b[q.row][q.col].content
  {
    var q := MovePosn(p, d);
    SwappedCells(b, q, p);
    SwappedSym(b, q, p);
    SwapFrame(b, q, p, p, d);
  }

  /** The boards one cell of a player slide produces, in terms of swaps. */
  lemma PlayerSlideStepIs(lv: Level, p: Posn, d: Direction)
    requires Rectangular(lv.board) && InBounds(lv.board, p) && InBounds(lv.board, MovePosn(p, d))
    ensures var q := MovePosn(p, d);
      var t := MovePosn(q, d);
      var ice := CellSlide(lv.board[p.row][p.col]);
      PlayerSlideStep(lv, p, d) ==
        if CanMoveTo(lv.board[q.row][q.col].content, t, lv.board) && ice then
          Some(Level(Swapped(Swapped(lv.board, t, q), p, q), q, lv.prevLevel, lv.steps))
        else if CanMoveTo(lv.board[p.row][p.col].content, q, lv.board) && ice then
          Some(Level(Swapped(lv.board, p, q), q, lv.prevLevel, lv.steps))
        else None
  {
  }

  /** One cell of a player slide changes only cells ahead of p, and carries the player
      from p one cell on. */
  lemma PlayerSlideStepFacts(lv: Level, p: Posn, d: Direction)
    requires Rectangular(lv.board) && InBounds(lv.board, p) && InBounds(lv.board, MovePosn(p, d))
    ensures var r := PlayerSlideStep(lv, p, d);
      r.Some? ==>
        && Frame(lv.board, r.value.board, p, d)
        && r.value.playerPos == MovePosn(p, d)
        && (lv.playerPos == p && PlayerAt(lv) ==> PlayerAt(r.value))
  {
    var slideTo := MovePosn(p, d);
    var ice := CellSlide(lv.board[p.row][p.col]);
    PlayerSlideStepIs(lv, p, d);
    if CanMoveTo(lv.board[slideTo.row][slideTo.col].content, MovePosn(slideTo, d), lv.board) && ice {
      PushSwitches(lv.board, p, d);
    } else if CanMoveTo(lv.board[p.row][p.col].content, slideTo, lv.board) && ice {
      StepSwitch(lv.board, p, d);
    }
  }

  lemma {:induction false} SlidePlayerFrame(lv: Level, p: Posn, d: Direction)
    requires Rectangular(lv.board)
    ensures Frame(lv.board, SlidePlayerBounded(lv, p, d).board, p, d)
    decreases Remaining(lv.board, p, d)
  {
    if InBounds(lv.board, p) && InBounds(lv.board, MovePosn(p, d)) {
      var step := PlayerSlideStep(lv, p, d);
      if step.Some? {
        var moved := step.value;
        PlayerSlideStepFacts(lv, p, d);
        SlidePlayerFrame(moved, MovePosn(p, d), d);
        FrameTrans(lv.board, moved.board, SlidePlayerBounded(moved, MovePosn(p, d), d).board, p, MovePosn(p, d), d);
      }
    }
  }

  /** A player slide leaves the cached position alone or moves it forward onto the board. */
  lemma {:induction false} SlidePlayerPos(lv: Level, p: Posn, d: Direction)
    requires Rectangular(lv.board)
    ensures var r := SlidePlayerBounded(lv, p, d);
      r.playerPos == lv.playerPos || (OnRay(r.playerPos, p, d) && InBounds(lv.board, r.playerPos))
    decreases Remaining(lv.board, p, d)
  {
    if InBounds(lv.board, p) && InBounds(lv.board, MovePosn(p, d)) {
      var step := PlayerSlideStep(lv, p, d);
      if step.Some? {
        SlidePlayerPos(step.value, MovePosn(p, d), d);
      }
    }
  }

  lemma {:induction false} SlidePlayerKeepsPlayer(lv: Level, p: Posn, d: Direction)
    requires Rectangular(lv.board) && lv.playerPos == p && PlayerAt(lv)
    ensures PlayerAt(SlidePlayerBounded(lv, p, d))
    decreases Remaining(lv.board, p, d)
  {
    if InBounds(lv.board, MovePosn(p, d)) {
      var step := PlayerSlideStep(lv, p, d);
      if step.Some? {
        PlayerSlideStepFacts(lv, p, d);
        SlidePlayerKeepsPlayer(step.value, MovePosn(p, d), d);
      }
    }
  }

  /** The boards the switches of a move produce, in terms of swaps. */
  lemma MoveSwitchesIs(lv: Level, d: Direction)
    requires Rectangular(lv.board)
    requires InBounds(lv.board, lv.playerPos) && InBounds(lv.board, MovePosn(lv.playerPos, d))
    ensures var p := lv.playerPos;
      var q := MovePosn(p, d);
      var t := MovePosn(q, d);
      MoveSwitches(lv, d) ==
        if CanMoveTo(lv.board[q.row][q.col].content, t, lv.board) then
          Some(Level(Swapped(Swapped(lv.board, t, q), q, p), q, Prev(lv), lv.steps + 1))
        else if CanMoveTo(lv.board[p.row][p.col].content, q, lv.board) then
          Some(Level(Swapped(lv.board, q, p), q, Prev(lv), lv.steps + 1))
        else None
  {
  }

  /** The switches of a move change only cells ahead of the player and carry the player
      one cell on. */
  lemma MoveSwitchesFacts(lv: Level, d: Direction)
    requires Rectangular(lv.board)
    requires InBounds(lv.board, lv.playerPos) && InBounds(lv.board, MovePosn(lv.playerPos, d))
    ensures var r := MoveSwitches(lv, d);
      r.Some? ==>
        && Frame(lv.board, r.value.board, lv.playerPos, d)
        && r.value.playerPos == MovePosn(lv.playerPos, d)
        && (PlayerAt(lv) ==> PlayerAt(r.value))
  {
    var p := lv.playerPos;
    var moveTo := MovePosn(p, d);
    MoveSwitchesIs(lv, d);
    if CanMoveTo(lv.board[moveTo.row][moveTo.col].content, MovePosn(moveTo, d), lv.board) {
      PushSwitches(lv.board, p, d);
    } else if CanMoveTo(lv.board[p.row][p.col].content, moveTo, lv.board) {
      StepSwitch(lv.board, p, d);
    }
  }

  /** The switches of a move keep the multiset of contents. */
  lemma MoveSwitchesContents(lv: Level, d: Direction)
    requires Rectangular(lv.board)
    requires InBounds(lv.board, lv.playerPos) && InBounds(lv.board, MovePosn(lv.playerPos, d))
    ensures var r := MoveSwitches(lv, d);
      r.Some? ==> Grid.Contents(r.value.board) == Grid.Contents(lv.board)
  {
    var p := lv.playerPos;
    var moveTo := MovePosn(p, d);
    var pushTo := MovePosn(moveTo, d);
    MoveSwitchesIs(lv, d);
    if CanMoveTo(lv.board[moveTo.row][moveTo.col].content, pushTo, lv.board) {
      SwappedContents(lv.board, pushTo, moveTo);
      SwappedContents(Swapped(lv.board, pushTo, moveTo), moveTo, p);
    } else if CanMoveTo(lv.board[p.row][p.col].content, moveTo, lv.board) {
      SwappedContents(lv.board, moveTo, p);
    }
  }

  /** A move changes only cells in its direction, and the cached player position moves
      only in the direction of travel and stays on the board. */
  lemma MovePlayerFrame(lv: Level, d: Direction)
    requires Rectangular(lv.board)
    ensures Frame(lv.board, MovePlayerBounded(lv, d).board, lv.playerPos, d)
  {
    var moveTo := MovePosn(lv.playerPos, d);
    var pushTo := MovePosn(moveTo, d);
    if InBounds(lv.board, lv.playerPos) && InBounds(lv.board, moveTo) {
      var step := MoveSwitches(lv, d);
      MoveSwitchesFacts(lv, d);
      if step.Some? {
        var m := step.value;
        var slid := SlideContentBounded(m, pushTo, d);
        SlideContentFrame(m, pushTo, d);
        SlidePlayerFrame(slid, moveTo, d);
        FrameTrans(lv.board, m.board, slid.board, lv.playerPos, pushTo, d);
        FrameTrans(lv.board, slid.board, SlidePlayerBounded(slid, moveTo, d).board, lv.playerPos, moveTo, d);
        assert MovePlayerBounded(lv, d) == SlidePlayerBounded(slid, moveTo, d);
      }
    }
  }

  /** The cached player position moves only in the direction of travel and stays on the
      board. */
  lemma MovePlayerPos(lv: Level, d: Direction)
    requires Rectangular(lv.board)
    ensures var r := MovePlayerBounded(lv, d);
      && OnRay(r.playerPos, lv.playerPos, d)
      && (InBounds(lv.board, lv.playerPos) ==> InBounds(lv.board, r.playerPos))
  {
    var moveTo := MovePosn(lv.playerPos, d);
    var pushTo := MovePosn(moveTo, d);
    if InBounds(lv.board, lv.playerPos) && InBounds(lv.board, moveTo) {
      var step := MoveSwitches(lv, d);
      if step.Some? {
        SlidePlayerPos(SlideContentBounded(step.value, pushTo, d), moveTo, d);
      }
    }
  }

  /** After a move the cached player position still names the player's cell. */
  lemma MovePlayerKeepsPlayer(lv: Level, d: Direction)
    requires Rectangular(lv.board) && PlayerAt(lv)
    ensures PlayerAt(MovePlayerBounded(lv, d))
  {
    var moveTo := MovePosn(lv.playerPos, d);
    var pushTo := MovePosn(moveTo, d);
    if InBounds(lv.board, lv.playerPos) && InBounds(lv.board, moveTo) {
      var step := MoveSwitches(lv, d);
      MoveSwitchesFacts(lv, d);
      if step.Some? {
        var m := step.value;
        var slid := SlideContentBounded(m, pushTo, d);
        SlideContentFrame(m, pushTo, d);
        assert !OnRay(moveTo, pushTo, d);
        assert slid.board[moveTo.row][moveTo.col] == m.board[moveTo.row][moveTo.col];
        SlidePlayerKeepsPlayer(slid, moveTo, d);
        assert MovePlayerBounded(lv, d) == SlidePlayerBounded(slid, moveTo, d);
      }
    }
  }

  // ------------------------------------------------------------ push, step, stay

  /** No cell of the board is ice. */
  predicate NoIce(b: Board) {
    forall row, col :: 0 <= row < |b| && 0 <= col < |b[row]| ==> b[row][col].ground != Ice
  }

  /** Facing a cell that holds something which cannot move on, Level.movePlayer returns
      the level unchanged. */
  lemma MoveBlocked(lv: Level, d: Direction)
    requires Rectangular(lv.board) && InBounds(lv.board, lv.playerPos)
    requires var moveTo := MovePosn(lv.playerPos, d);
      && InBounds(lv.board, moveTo)
      && lv.board[moveTo.row][moveTo.col].content != Blank
      && !CanMoveTo(lv.board[moveTo.row][moveTo.col].content, MovePosn(moveTo, d), lv.board)
    ensures MovePlayer(lv, d) == Ok(lv)
  {
  }

  /** A content or a player that does not stand on ice does not slide. */
  lemma NotOnIce(lv: Level, p: Posn, d: Direction)
    requires Rectangular(lv.board)
    requires InBounds(lv.board, p) ==> lv.board[p.row][p.col].ground != Ice
    ensures SlideContentBounded(lv, p, d) == lv && SlidePlayerBounded(lv, p, d) == lv
  {
  }

  /** Without ice, a step onto a blank cell moves the player there and changes nothing else. */
  lemma MoveStep(lv: Level, d: Direction)
    requires Rectangular(lv.board) && PlayerAt(lv) && NoIce(lv.board)
    requires InBounds(lv.board, MovePosn(lv.playerPos, d))
    requires lv.board[MovePosn(lv.playerPos, d).row][MovePosn(lv.playerPos, d).col].content == Blank
    ensures MovePlayerBounded(lv, d) ==
      Level(Swapped(lv.board, lv.playerPos, MovePosn(lv.playerPos, d)), MovePosn(lv.playerPos, d), Prev(lv), lv.steps + 1)
  {
    var p := lv.playerPos;
    var moveTo := MovePosn(p, d);
    var m := Level(Swapped(lv.board, moveTo, p), moveTo, Prev(lv), lv.steps + 1);
    SwappedCells(lv.board, moveTo, p);
    SwappedSym(lv.board, moveTo, p);
    MoveSwitchesIs(lv, d);
    assert MoveSwitches(lv, d) == Some(m);
    assert MovePlayerBounded(lv, d) == SlidePlayerBounded(SlideContentBounded(m, MovePosn(moveTo, d), d), moveTo, d);
    NotOnIce(m, MovePosn(moveTo, d), d);
    NotOnIce(m, moveTo, d);
  }

  /** Without ice, a push moves the content ahead one cell on and the player into its place. */
  lemma MovePush(lv: Level, d: Direction)
    requires Rectangular(lv.board) && PlayerAt(lv) && NoIce(lv.board)
    requires InBounds(lv.board, MovePosn(lv.playerPos, d))
    requires CanMoveTo(lv.board[MovePosn(lv.playerPos, d).row][MovePosn(lv.playerPos, d).col].content,
      MovePosn(MovePosn(lv.playerPos, d), d), lv.board)
    ensures var moveTo := MovePosn(lv.playerPos, d);
      MovePlayerBounded(lv, d) ==
        Level(Swapped(Swapped(lv.board, MovePosn(moveTo, d), moveTo), moveTo, lv.playerPos), moveTo, Prev(lv), lv.steps + 1)
  {
    var p := lv.playerPos;
    var moveTo := MovePosn(p, d);
    var pushTo := MovePosn(moveTo, d);
    var s := Swapped(lv.board, pushTo, moveTo);
    var m := Level(Swapped(s, moveTo, p), moveTo, Prev(lv), lv.steps + 1);
    SwappedCells(lv.board, pushTo, moveTo);
    SwappedCells(s, moveTo, p);
    MoveSwitchesIs(lv, d);
    assert MoveSwitches(lv, d) == Some(m);
    assert MovePlayerBounded(lv, d) == SlidePlayerBounded(SlideContentBounded(m, pushTo, d), moveTo, d);
    NotOnIce(m, pushTo, d);
    NotOnIce(m, moveTo, d);
  }

  // ------------------------------------------------------------ where a slide stops

  /** Where a content c that starts at q comes to rest on board b: the first cell from q
      on whose ground does not let c slide, or from which c may not move onto the next
      cell. */
  function SlideStop(b: Board, c: Content, q: Posn, d: Direction): (s: Posn)
    requires Rectangular(b) && InBounds(b, q)
    ensures InBounds(b, s) && OnRay(s, q, d)
    decreases Remaining(b, q, d)
  {
    if GroundSlide(b[q.row][q.col].ground, c) && CanMoveTo(c, MovePosn(q, d), b) then
      SlideStop(b, c, MovePosn(q, d), d)
    else q
  }

  /** Boards b1 and b2 hold the same cells on the ray from q. */
  ghost predicate SameOnRay(b1: Board, b2: Board, q: Posn, d: Direction)
    requires Rectangular(b1) && Rectangular(b2) && |b1| == |b2| && Width(b1) == Width(b2)
  {
    forall x :: InBounds(b1, x) && OnRay(x, q, d) ==> b1[x.row][x.col] == b2[x.row][x.col]
  }

  /** Agreement on the ray from q covers q itself and the ray from the next cell. */
  lemma SameOnRayStep(b1: Board, b2: Board, q: Posn, d: Direction)
    requires Rectangular(b1) && Rectangular(b2) && |b1| == |b2| && Width(b1) == Width(b2)
    requires SameOnRay(b1, b2, q, d)
    ensures InBounds(b1, q) ==> b1[q.row][q.col] == b2[q.row][q.col]
    ensures SameOnRay(b1, b2, MovePosn(q, d), d)
  {
    RayStep(q, q, d);
    forall x | InBounds(b1, x) && OnRay(x, MovePosn(q, d), d)
      ensures b1[x.row][x.col] == b2[x.row][x.col]
    {
      RayStep(x, q, d);
    }
  }

  /** The stop depends only on the ground at q and on the cells past q on the ray. */
  lemma {:induction false} SlideStopFrame(b1: Board, b2: Board, c: Content, q: Posn, d: Direction)
    requires Rectangular(b1) && Rectangular(b2) && |b1| == |b2| && Width(b1) == Width(b2) && InBounds(b1, q)
    requires b1[q.row][q.col].ground == b2[q.row][q.col].ground && SameOnRay(b1, b2, MovePosn(q, d), d)
    ensures SlideStop(b1, c, q, d) == SlideStop(b2, c, q, d)
    decreases Remaining(b1, q, d)
  {
    var next := MovePosn(q, d);
    SameOnRayStep(b1, b2, next, d);
    assert CanMoveTo(c, next, b1) == CanMoveTo(c, next, b2);
    if InBounds(b1, next) {
      SlideStopFrame(b1, b2, c, next, d);
    }
  }

  /** The path to the stop: every cell the content leaves has a ground it slides on,
      every cell it enters is blank, and at the stop it can slide no further. */
  lemma {:induction false} SlideStopPath(b: Board, c: Content, q: Posn, d: Direction)
    requires Rectangular(b) && InBounds(b, q)
    ensures var s := SlideStop(b, c, q, d);
      && !(GroundSlide(b[s.row][s.col].ground, c) && CanMoveTo(c, MovePosn(s, d), b))
      && (forall x :: InBounds(b, x) && OnRay(x, q, d) && OnRay(s, x, d) && x != s ==>
            GroundSlide(b[x.row][x.col].ground, c))
      && (forall x :: InBounds(b, x) && OnRay(x, q, d) && OnRay(s, x, d) && x != q ==>
            b[x.row][x.col].content == Blank)
    decreases Remaining(b, q, d)
  {
    var next := MovePosn(q, d);
    if GroundSlide(b[q.row][q.col].ground, c) && CanMoveTo(c, next, b) {
      SlideStopPath(b, c, next, d);
      var s := SlideStop(b, c, next, d);
      forall x | InBounds(b, x) && OnRay(x, q, d) && OnRay(s, x, d) && x != s
        ensures GroundSlide(b[x.row][x.col].ground, c)
      {
        RayStep(x, q, d);
      }
      forall x | InBounds(b, x) && OnRay(x, q, d) && OnRay(s, x, d) && x != q
        ensures b[x.row][x.col].content == Blank
      {
        RayStep(x, q, d);
      }
    } else {
      forall x | InBounds(b, x) && OnRay(x, q, d) && OnRay(q, x, d)
        ensures x == q
      {
      }
    }
  }

  /** Level.slideContent moves the content at pos straight to SlideStop, leaving blank
      behind, and changes no other cell. */
  lemma {:induction false} SlideContentStops(lv: Level, pos: Posn, d: Direction)
    requires Rectangular(lv.board) && InBounds(lv.board, pos)
    ensures var b := lv.board;
      SlideContentBounded(lv, pos, d).board == Swapped(b, pos, SlideStop(b, b[pos.row][pos.col].content, pos, d))
    decreases Remaining(lv.board, pos, d)
  {
    var b: Board := lv.board;
    var c := b[pos.row][pos.col].content;
    var slideTo := MovePosn(pos, d);
    if GroundSlide(b[pos.row][pos.col].ground, c) && CanMoveTo(c, slideTo, b) {
      var next := SwitchLevel(lv, pos, slideTo, lv.playerPos, lv.prevLevel, lv.steps).value;
      SwappedCells(b, pos, slideTo);
      SlideContentStops(next, slideTo, d);
      forall x | InBounds(b, x) && OnRay(x, MovePosn(slideTo, d), d)
        ensures b[x.row][x.col] == next.board[x.row][x.col]
      {
        RayStep(x, slideTo, d);
        RayStep(x, pos, d);
      }
      SlideStopFrame(b, next.board, c, slideTo, d);
      var s := SlideStop(b, c, slideTo, d);
      SlideStopPath(b, c, pos, d);
      RayStep(s, pos, d);
      RayStep(slideTo, pos, d);
      SwapChain(b, pos, slideTo, s);
      assert SlideContentBounded(lv, pos, d) == SlideContentBounded(next, slideTo, d);
    } else {
      SwapSame(b, pos);
    }
  }

  /** The test Level.slidePlayer makes at q before it moves the player on: q and the next
      cell are on the board, the player's cell lets it slide, and the content ahead can be
      pushed or the cell ahead can be entered. */
  predicate PlayerSlides(b: Board, q: Posn, d: Direction)
    requires Rectangular(b)
  {
    var next := MovePosn(q, d);
    && InBounds(b, q) && InBounds(b, next) && CellSlide(b[q.row][q.col])
    && (CanMoveTo(b[next.row][next.col].content, MovePosn(next, d), b) || CanMoveTo(b[q.row][q.col].content, next, b))
  }

  /** One cell of a player slide happens exactly when the test passes, and leaves the
      player's old cell blank. */
  lemma PlayerSlideStepLeaves(lv: Level, p: Posn, d: Direction)
    requires Rectangular(lv.board) && InBounds(lv.board, p) && InBounds(lv.board, MovePosn(p, d))
    ensures PlayerSlideStep(lv, p, d).Some? <==> PlayerSlides(lv.board, p, d)
    ensures PlayerSlideStep(lv, p, d).Some? ==> PlayerSlideStep(lv, p, d).value.board[p.row][p.col].content == Blank
  {
    var q := MovePosn(p, d);
    var t := MovePosn(q, d);
    var b: Board := lv.board;
    PlayerSlideStepIs(lv, p, d);
    if CanMoveTo(b[q.row][q.col].content, t, b) && CellSlide(b[p.row][p.col]) {
      SwappedCells(b, t, q);
      SwappedCells(Swapped(b, t, q), p, q);
    } else if CanMoveTo(b[p.row][p.col].content, q, b) && CellSlide(b[p.row][p.col]) {
      SwappedCells(b, p, q);
    }
  }

  /** Every cell from p up to, not including, s has ice under it on board b and is blank
      on board r: the cells a player that slid from p to s passed. */
  ghost predicate SlidPast(b: Board, r: Board, p: Posn, s: Posn, d: Direction)
    requires Rectangular(b) && Rectangular(r) && |r| == |b| && Width(r) == Width(b)
  {
    forall q :: InBounds(b, q) && OnRay(q, p, d) && OnRay(s, q, d) && q != s ==>
      b[q.row][q.col].ground == Ice && r[q.row][q.col].content == Blank
  }

  /** A slide that started with an ice cell at p, left blank, extends the cells passed. */
  lemma SlidPastStep(b: Board, m: Board, r: Board, p: Posn, s: Posn, d: Direction)
    requires Frame(b, m, p, d) && Rectangular(r) && |r| == |b| && Width(r) == Width(b)
    requires InBounds(b, p) && b[p.row][p.col].ground == Ice && r[p.row][p.col].content == Blank
    requires OnRay(s, MovePosn(p, d), d) && SlidPast(m, r, MovePosn(p, d), s, d)
    ensures SlidPast(b, r, p, s, d)
  {
    forall q | InBounds(b, q) && OnRay(q, p, d) && OnRay(s, q, d) && q != s
      ensures b[q.row][q.col].ground == Ice && r[q.row][q.col].content == Blank
    {
      RayStep(q, p, d);
    }
  }

  /** A slide that did not start passed no cell. */
  lemma SlidPastNone(b: Board, p: Posn, d: Direction)
    requires Rectangular(b)
    ensures SlidPast(b, b, p, p, d)
  {
    forall q | InBounds(b, q) && OnRay(q, p, d) && OnRay(p, q, d)
      ensures q == p
    {
    }
  }

  /** Level.slidePlayer stops the player at the first cell where the test fails: the player
      ends on the ray, every cell it slid off is ice and is left blank, and from where it
      ends it can slide no further. */
  lemma {:induction false} SlidePlayerStops(lv: Level, p: Posn, d: Direction)
    requires Rectangular(lv.board) && lv.playerPos == p && PlayerAt(lv)
    ensures var r := SlidePlayerBounded(lv, p, d);
      && OnRay(r.playerPos, p, d) && PlayerAt(r)
      && !PlayerSlides(r.board, r.playerPos, d)
      && SlidPast(lv.board, r.board, p, r.playerPos, d)
    decreases Remaining(lv.board, p, d)
  {
    var next := MovePosn(p, d);
    var r := SlidePlayerBounded(lv, p, d);
    SlidePlayerKeepsPlayer(lv, p, d);
    if InBounds(lv.board, next) && PlayerSlideStep(lv, p, d).Some? {
      var moved := PlayerSlideStep(lv, p, d).value;
      PlayerSlideStepFacts(lv, p, d);
      PlayerSlideStepLeaves(lv, p, d);
      CellTable(lv.board[p.row][p.col].ground, lv.board[p.row][p.col].content);
      SlidePlayerStops(moved, next, d);
      SlidePlayerFrame(moved, next, d);
      assert r == SlidePlayerBounded(moved, next, d);
      RayStep(p, p, d);
      SlidPastStep(lv.board, moved.board, r.board, p, r.playerPos, d);
    } else {
      if InBounds(lv.board, next) {
        PlayerSlideStepLeaves(lv, p, d);
      }
      SlidPastNone(lv.board, p, d);
    }
  }

  /** After the switches of a push the pushed content is on the cell beyond, and every
      cell past that one is as before, so the content stops where it would have. */
  lemma PushAhead(b: Board, p: Posn, d: Direction)
    requires Rectangular(b) && InBounds(b, p)
    requires InBounds(b, MovePosn(p, d)) && InBounds(b, MovePosn(MovePosn(p, d), d))
    ensures var q := MovePosn(p, d);
      var t := MovePosn(q, d);
      var m := Swapped(Swapped(b, t, q), q, p);
      && Frame(b, m, p, d)
      && m[t.row][t.col].content == b[q.row][q.col].content
      && SlideStop(m, b[q.row][q.col].content, t, d) == SlideStop(b, b[q.row][q.col].content, t, d)
  {
    var q := MovePosn(p, d);
    var t := MovePosn(q, d);
    var s1 := Swapped(b, t, q);
    var m := Swapped(s1, q, p);
    PushSwitches(b, p, d);
    SwappedCells(b, t, q);
    SwappedCells(s1, q, p);
    RayStep(p, p, d);
    RayStep(q, q, d);
    forall x | InBounds(b, x) && OnRay(x, MovePosn(t, d), d)
      ensures m[x.row][x.col] == b[x.row][x.col]
    {
      RayStep(x, t, d);
      RayStep(x, q, d);
      RayStep(x, p, d);
    }
    SlideStopFrame(m, b, b[q.row][q.col].content, t, d);
  }

  /** A push that leaves the player on a cell without ice: the pushed content slides from
      the cell beyond to its SlideStop, and the player stays on the cell ahead. */
  lemma MovePushSlides(lv: Level, d: Direction)
    requires Rectangular(lv.board) && PlayerAt(lv)
    requires var moveTo := MovePosn(lv.playerPos, d);
      && InBounds(lv.board, moveTo) && lv.board[moveTo.row][moveTo.col].ground != Ice
      && CanMoveTo(lv.board[moveTo.row][moveTo.col].content, MovePosn(moveTo, d), lv.board)
    ensures var b, p := lv.board, lv.playerPos;
      var moveTo := MovePosn(p, d);
      var pushTo := MovePosn(moveTo, d);
      var m := Swapped(Swapped(b, pushTo, moveTo), moveTo, p);
      MovePlayerBounded(lv, d) ==
        Level(Swapped(m, pushTo, SlideStop(b, b[moveTo.row][moveTo.col].content, pushTo, d)), moveTo, Prev(lv), lv.steps + 1)
  {
    var b: Board, p := lv.board, lv.playerPos;
    var moveTo := MovePosn(p, d);
    var pushTo := MovePosn(moveTo, d);
    var ml := Level(Swapped(Swapped(b, pushTo, moveTo), moveTo, p), moveTo, Prev(lv), lv.steps + 1);
    MoveSwitchesIs(lv, d);
    assert MoveSwitches(lv, d) == Some(ml);
    PushAhead(b, p, d);
    SlideContentStops(ml, pushTo, d);
    var slid := SlideContentBounded(ml, pushTo, d);
    SlideContentFrame(ml, pushTo, d);
    assert MovePlayerBounded(lv, d) == SlidePlayerBounded(slid, moveTo, d);
    NotOnIce(slid, moveTo, d);
  }

  /** A swap on a board of one row, as two updates of that row. */
  lemma SwappedOneRow(row: seq<Cell8>, i: int, j: int)
    requires 0 <= i < |row| && 0 <= j < |row| && i != j
    ensures Swapped([row], Posn(i, 0), Posn(j, 0)) ==
      [row[i := Cell(row[i].ground, row[j].content)][j := Cell(row[j].ground, row[i].content)]]
  {
    var b: Board := [row];
    var r := Swapped(b, Posn(i, 0), Posn(j, 0));
    var e := row[i := Cell(row[i].ground, row[j].content)][j := Cell(row[j].ground, row[i].content)];
    SwappedCells(b, Posn(i, 0), Posn(j, 0));
    forall col | 0 <= col < |row|
      ensures r[0][col] == e[col]
    {
    }
    assert r[0] == e;
    assert r == [e];
  }

  /** A box pushed onto a run of ice slides over it and comes to rest on the first cell
      past the run; the player stays where the box was. */
  lemma IcePushScenario()
    ensures var lv := Level([[Cell(Normal, Player), Cell(Normal, Box), Cell(Ice, Blank), Cell(Ice, Blank), Cell(Normal, Blank)]],
        Posn(0, 0), Root, 0);
      MovePlayerBounded(lv, Right) ==
        Level([[Cell(Normal, Blank), Cell(Normal, Player), Cell(Ice, Blank), Cell(Ice, Blank), Cell(Normal, Box)]],
          Posn(1, 0), Prev(lv), 1)
  {
    var row0 := [Cell(Normal, Player), Cell(Normal, Box), Cell(Ice, Blank), Cell(Ice, Blank), Cell(Normal, Blank)];
    var row1 := [Cell(Normal, Player), Cell(Normal, Blank), Cell(Ice, Box), Cell(Ice, Blank), Cell(Normal, Blank)];
    var row2 := [Cell(Normal, Blank), Cell(Normal, Player), Cell(Ice, Box), Cell(Ice, Blank), Cell(Normal, Blank)];
    var row3 := [Cell(Normal, Blank), Cell(Normal, Player), Cell(Ice, Blank), Cell(Ice, Blank), Cell(Normal, Box)];
    var b: Board := [row0];
    SwappedOneRow(row0, 2, 1);
    assert row0[2 := Cell(Ice, Box)][1 := Cell(Normal, Blank)] == row1;
    SwappedOneRow(row1, 1, 0);
    assert row1[1 := Cell(Normal, Player)][0 := Cell(Normal, Blank)] == row2;
    SwappedOneRow(row2, 2, 4);
    assert row2[2 := Cell(Ice, Blank)][4 := Cell(Normal, Box)] == row3;
    assert SlideStop(b, Box, Posn(4, 0), Right) == Posn(4, 0);
    assert SlideStop(b, Box, Posn(2, 0), Right) == Posn(4, 0);
    MovePushSlides(Level(b, Posn(0, 0), Root, 0), Right);
  }

  // ------------------------------------------------------------ nothing appears, nothing is lost

  lemma {:induction false} SlideContentKeepsContents(lv: Level, pos: Posn, d: Direction)
    requires Rectangular(lv.board)
    ensures Grid.Contents(SlideContentBounded(lv, pos, d).board) == Grid.Contents(lv.board)
    decreases Remaining(lv.board, pos, d)
  {
    if InBounds(lv.board, pos) {
      var slideTo := MovePosn(pos, d);
      var cell := lv.board[pos.row][pos.col];
      if CanMoveTo(cell.content, slideTo, lv.board) && CellSlide(cell) {
        SwappedContents(lv.board, pos, slideTo);
        SlideContentKeepsContents(SwitchLevel(lv, pos, slideTo, lv.playerPos, lv.prevLevel, lv.steps).value, slideTo, d);
      }
    }
  }

  lemma PlayerSlideStepKeepsContents(lv: Level, p: Posn, d: Direction)
    requires Rectangular(lv.board) && InBounds(lv.board, p) && InBounds(lv.board, MovePosn(p, d))
    ensures var r := PlayerSlideStep(lv, p, d);
      r.Some? ==> Grid.Contents(r.value.board) == Grid.Contents(lv.board)
  {
    var slideTo := MovePosn(p, d);
    var pushTo := MovePosn(slideTo, d);
    var ice := CellSlide(lv.board[p.row][p.col]);
    PlayerSlideStepIs(lv, p, d);
    if CanMoveTo(lv.board[slideTo.row][slideTo.col].content, pushTo, lv.board) && ice {
      SwappedContents(lv.board, pushTo, slideTo);
      SwappedContents(Swapped(lv.board, pushTo, slideTo), p, slideTo);
    } else if CanMoveTo(lv.board[p.row][p.col].content, slideTo, lv.board) && ice {
      SwappedContents(lv.board, p, slideTo);
    }
  }

  lemma {:induction false} SlidePlayerKeepsContents(lv: Level, p: Posn, d: Direction)
    requires Rectangular(lv.board)
    ensures Grid.Contents(SlidePlayerBounded(lv, p, d).board) == Grid.Contents(lv.board)
    decreases Remaining(lv.board, p, d)
  {
    if InBounds(lv.board, p) && InBounds(lv.board, MovePosn(p, d)) {
      var step := PlayerSlideStep(lv, p, d);
      if step.Some? {
        PlayerSlideStepKeepsContents(lv, p, d);
        SlidePlayerKeepsContents(step.value, MovePosn(p, d), d);
      }
    }
  }

  /** A move only rearranges contents: the multiset of contents on the board before and
      after is the same, so no box, trophy, wall or player is created or lost. */
  lemma MovePlayerKeepsContents(lv: Level, d: Direction)
    requires Rectangular(lv.board)
    ensures Grid.Contents(MovePlayerBounded(lv, d).board) == Grid.Contents(lv.board)
  {
    var moveTo := MovePosn(lv.playerPos, d);
    var pushTo := MovePosn(moveTo, d);
    if InBounds(lv.board, lv.playerPos) && InBounds(lv.board, moveTo) {
      var step := MoveSwitches(lv, d);
      MoveSwitchesContents(lv, d);
      if step.Some? {
        SlideContentKeepsContents(step.value, pushTo, d);
        SlidePlayerKeepsContents(SlideContentBounded(step.value, pushTo, d), moveTo, d);
      }
    }
  }

  // ------------------------------------------------------------ undo

  /** Undoing a move that changed the level gives back the board and the player position
      from before the move, two steps later, with the older history in place. */
  lemma UndoAfterMove(lv: Level, d: Direction)
    requires Rectangular(lv.board) && MovePlayerBounded(lv, d) != lv
    ensures var u := UndoMove(SettledLevel(MovePlayerBounded(lv, d)));
      && u.board == lv.board && u.playerPos == lv.playerPos && u.steps == lv.steps + 2
      && PrevOf(u) == PrevOf(lv)
  {
  }

  /** At the root there is nothing to undo: undo keeps board and player and still counts a step. */
  lemma UndoAtRoot(lv: Level)
    requires lv.prevLevel == Root
    ensures UndoMove(lv).board == lv.board && UndoMove(lv).playerPos == lv.playerPos
    ensures UndoMove(lv).steps == lv.steps + 1
    ensures UndoMove(UndoMove(lv)).board == lv.board && UndoMove(UndoMove(lv)).steps == lv.steps + 2
  {
  }

  /** Moves, settling and undo keep every level of the undo chain valid. */
  lemma ValidLevelKept(lv: Level, d: Direction)
    requires ValidLevel(lv)
    ensures ValidLevel(MovePlayerBounded(lv, d))
    ensures ValidLevel(SettledLevel(lv))
    ensures ValidLevel(UndoMove(lv))
  {
    MovePlayerFrame(lv, d);
    MovePlayerPos(lv, d);
    SettledIsSettled(lv.board);
  }
}
