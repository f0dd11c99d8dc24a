// The immutable Level of the ice version: every operation returns a new level and
// leaves its receiver alone; the undo history is the chain of previous levels.
module Level8 {
  import opened Basics
  import opened Cells8
  import opened Board8
  import LevelText
  import Grid

  /** The previous level a level keeps for undo. A level read from text points at
      itself in the Java code; Root stands for that self-reference. */
  datatype History = Root | Prev(level: Level)

  datatype Level = Level(board: Board, playerPos: Posn, prevLevel: History, steps: int)

  /** The level the prevLevel field refers to (the level itself at the root). */
  function PrevOf(lv: Level): Level {
    match lv.prevLevel
    case Root => lv
    case Prev(p) => p
  }

  /** Every level of the undo chain has a rectangular board with the cached player
      position on it. */
  predicate ValidLevel(lv: Level) {
    Rectangular(lv.board) && InBounds(lv.board, lv.playerPos) &&
    match lv.prevLevel
    case Root => true
    case Prev(p) => ValidLevel(p)
  }

  /** The Level(String, String) constructor: parse both texts and start a fresh history. */
  function NewLevel(groundStr: string, contentStr: string): (r: Result<Level>)
    ensures |groundStr| != |contentStr| ==> r == Err(LengthMismatch)
    ensures r.Ok? <==> LevelText.Parse(groundStr, contentStr, MakeGround).Ok?
    ensures r.Err? ==> r.error == LevelText.Parse(groundStr, contentStr, MakeGround).error
    ensures r.Ok? ==>
      && r.value.board == LevelText.Parse(groundStr, contentStr, MakeGround).value.grid
      && r.value.playerPos == LevelText.Parse(groundStr, contentStr, MakeGround).value.player
    ensures r.Ok? ==> r.value.prevLevel == Root && r.value.steps == 0
    ensures r.Ok? ==>
      && 0 <= r.value.playerPos.row < |r.value.board|
      && 0 <= r.value.playerPos.col < |r.value.board[r.value.playerPos.row]|
      && r.value.board[r.value.playerPos.row][r.value.playerPos.col].content == Player
  {
    var parsed :- LevelText.Parse(groundStr, contentStr, MakeGround);
    LevelText.ParsedPlayerCell(groundStr, contentStr, MakeGround);
    Ok(Level(parsed.grid, parsed.player, Root, 0))
  }

  /** The cached player position addresses a cell that holds the player. */
  predicate PlayerAt(lv: Level)
    requires Rectangular(lv.board)
  {
    InBounds(lv.board, lv.playerPos) && lv.board[lv.playerPos.row][lv.playerPos.col].content == Player
  }

  // ------------------------------------------------------------ switchContents

  /** Level.switchContents as a value: the contents at p1 and p2 exchanged, with the
      given player position, history and step count. */
  function SwitchLevel(lv: Level, p1: Posn, p2: Posn, playerPos: Posn, prev: History, steps: int): (r: Result<Level>)
    requires Rectangular(lv.board)
    ensures r.Ok? <==> InBounds(lv.board, p1) && InBounds(lv.board, p2)
    ensures r.Err? ==> r.error == OutOfBounds
  {
    var _ :- FindCell(lv.board, p1);
    var _ :- FindCell(lv.board, p2);
    Ok(Level(Swapped(lv.board, p1, p2), playerPos, prev, steps))
  }

  /** Level.switchContents: rebuilds the board row by row. */
  method SwitchContents(lv: Level, p1: Posn, p2: Posn, playerPos: Posn, prev: History, steps: int)
    returns (r: Result<Level>)
    requires Rectangular(lv.board)
    ensures r == SwitchLevel(lv, p1, p2, playerPos, prev, steps)
  {
    var c1 := FindCell(lv.board, p1);
    if c1.Err? { return Err(c1.error); }
    var c2 := FindCell(lv.board, p2);
    if c2.Err? { return Err(c2.error); }
    var b: Board := lv.board;
    var newBoard: Board := [];
    var row := 0;
    while row < |b|
      invariant 0 <= row <= |b|
      invariant |newBoard| == row
      invariant forall i :: 0 <= i < row ==> newBoard[i] == SwappedRow(b, p1, p2, i)
    {
      var newRow: seq<Cell8> := [];
      var col := 0;
      while col < |b[row]|
        invariant 0 <= col <= Width(b)
        invariant |newRow| == col
        invariant forall k :: 0 <= k < col ==> newRow[k] == SwapCell(b, p1, p2, row, k)
      {
        var cell := b[row][col];
        if Posn(col, row) == p1 {
          newRow := newRow + [Cell(cell.ground, c2.value.content)];
        } else if Posn(col, row) == p2 {
          newRow := newRow + [Cell(cell.ground, c1.value.content)];
        } else {
          newRow := newRow + [cell];
        }
        col := col + 1;
      }
      newBoard := newBoard + [newRow];
      row := row + 1;
    }
    assert newBoard == Swapped(b, p1, p2) by {
      forall i | 0 <= i < |b|
        ensures newBoard[i] == Swapped(b, p1, p2)[i]
      {
      }
    }
    r := Ok(Level(newBoard, playerPos, prev, steps));
  }

  // ------------------------------------------------------------ movement

  /** Level.slideContent: while the content at pos may move onto the next cell and its
      own cell is ice, it advances one cell; position, history and steps are kept. */
  function SlideContent(lv: Level, pos: Posn, d: Direction): (r: Result<Level>)
    requires Rectangular(lv.board)
    ensures r.Ok? <==> InBounds(lv.board, pos)
    ensures r.Err? ==> r.error == OutOfBounds
    ensures r.Ok? ==> Rectangular(r.value.board)
    ensures r.Ok? ==>
      r.value.playerPos == lv.playerPos && r.value.prevLevel == lv.prevLevel && r.value.steps == lv.steps
    decreases Remaining(lv.board, pos, d)
  {
    var slideTo := MovePosn(pos, d);
    var cell :- FindCell(lv.board, pos);
    if CanMoveTo(cell.content, slideTo, lv.board) && CellSlide(cell) then
      var next := SwitchLevel(lv, pos, slideTo, lv.playerPos, lv.prevLevel, lv.steps).value;
      SlideContent(next, slideTo, d)
    else Ok(lv)
  }

  /** Level.slidePlayer: while the player at p stands on ice, it pushes the next cell's
      content on, or steps on; the next position must exist on the board. */
  function SlidePlayer(lv: Level, p: Posn, d: Direction): (r: Result<Level>)
    requires Rectangular(lv.board)
    ensures r.Ok? ==> InBounds(lv.board, p) && InBounds(lv.board, MovePosn(p, d))
    ensures r.Err? ==> r.error == OutOfBounds
    ensures r.Ok? ==> Rectangular(r.value.board)
    ensures r.Ok? ==> r.value.prevLevel == lv.prevLevel && r.value.steps == lv.steps
    decreases Remaining(lv.board, p, d)
  {
    var slideTo := MovePosn(p, d);
    var pushTo := MovePosn(slideTo, d);
    var playerCell :- FindCell(lv.board, p);
    var slideCell :- FindCell(lv.board, slideTo);
    if CanMoveTo(slideCell.content, pushTo, lv.board) && CellSlide(playerCell) then
      var pushed := SwitchLevel(lv, pushTo, slideTo, p, lv.prevLevel, lv.steps).value;
      var moved := SwitchLevel(pushed, p, slideTo, slideTo, lv.prevLevel, lv.steps).value;
      SlidePlayer(moved, slideTo, d)
    else if CanMoveTo(playerCell.content, slideTo, lv.board) && CellSlide(playerCell) then
      var moved := SwitchLevel(lv, p, slideTo, slideTo, lv.prevLevel, lv.steps).value;
      SlidePlayer(moved, slideTo, d)
    else Ok(lv)
  }

  /** Level.movePlayer: push the next content if it can move on, else step if the next
      cell is free, else stay; then let the pushed content and the player slide. */
  function MovePlayer(lv: Level, d: Direction): (r: Result<Level>)
    requires Rectangular(lv.board)
    ensures r.Err? ==> r.error == OutOfBounds
    ensures r.Ok? ==> Rectangular(r.value.board)
    ensures r.Ok? ==> r.value == lv || (r.value.prevLevel == Prev(lv) && r.value.steps == lv.steps + 1)
  {
    var moveTo := MovePosn(lv.playerPos, d);
    var pushTo := MovePosn(moveTo, d);
    var playerCell :- FindCell(lv.board, lv.playerPos);
    var pushable :- FindCell(lv.board, moveTo);
    if CanMoveTo(pushable.content, pushTo, lv.board) then
      var pushed := SwitchLevel(lv, pushTo, moveTo, lv.playerPos, Prev(lv), lv.steps).value;
      var moved := SwitchLevel(pushed, moveTo, lv.playerPos, moveTo, Prev(lv), lv.steps + 1).value;
      var slid :- SlideContent(moved, pushTo, d);
      SlidePlayer(slid, moveTo, d)
    else if CanMoveTo(playerCell.content, moveTo, lv.board) then
      var moved := SwitchLevel(lv, moveTo, lv.playerPos, moveTo, Prev(lv), lv.steps + 1).value;
      var slid :- SlideContent(moved, pushTo, d);
      SlidePlayer(slid, moveTo, d)
    else Ok(lv)
  }

  // ------------------------------------------------------------ updateLevel, score, undo

  /** Level.updateLevel as a value: the board settled, with the player, the steps and the
      receiver's previous level kept. At the root that previous level is the receiver
      itself, so the settled level links back to the level before settling. */
  function SettledLevel(lv: Level): Level {
    Level(Settled(lv.board), lv.playerPos, Prev(PrevOf(lv)), lv.steps)
  }

  /** Level.updateLevel: rebuilds the board, turning every occupied hole into blank floor. */
  method UpdateLevel(lv: Level) returns (r: Level)
    ensures r == SettledLevel(lv)
  {
    var b: Board := lv.board;
    var newBoard: Board := [];
    var row := 0;
    while row < |b|
      invariant 0 <= row <= |b|
      invariant newBoard == Settled(b)[..row]
    {
      var newRow: seq<Cell8> := [];
      var col := 0;
      while col < |b[row]|
        invariant 0 <= col <= |b[row]|
        invariant newRow == Settled(b)[row][..col]
      {
        var cell := b[row][col];
        if CellFall(cell) {
          newRow := newRow + [Cell(Normal, Blank)];
        } else {
          newRow := newRow + [cell];
        }
        col := col + 1;
      }
      assert newRow == Settled(b)[row];
      assert Settled(b)[..row + 1] == Settled(b)[..row] + [Settled(b)[row]];
      newBoard := newBoard + [newRow];
      row := row + 1;
    }
    r := Level(newBoard, lv.playerPos, Prev(PrevOf(lv)), lv.steps);
  }

  /** Level.updateScore: the same board and player with a new step count; the new level
      keeps the receiver's previous level. */
  function UpdateScore(lv: Level, score: int): (r: Level)
    ensures r.board == lv.board && r.playerPos == lv.playerPos && r.steps == score
    ensures PrevOf(r) == PrevOf(lv)
  {
    Level(lv.board, lv.playerPos, Prev(PrevOf(lv)), score)
  }

  /** Level.undoMove: the previous level, with the step count one past this level's. */
  function UndoMove(lv: Level): (r: Level)
    ensures r.board == PrevOf(lv).board && r.playerPos == PrevOf(lv).playerPos
    ensures r.steps == lv.steps + 1
  {
    UpdateScore(PrevOf(lv), lv.steps + 1)
  }

  // ------------------------------------------------------------ win and loss

  /** Level.levelWon: scans every cell for one whose ground is not won. */
  method LevelWon(lv: Level) returns (won: bool)
    ensures won <==> AllTargetsMatched(lv.board)
  {
    var b: Board := lv.board;
    for row := 0 to |b|
      invariant forall i, j :: 0 <= i < row && 0 <= j < |b[i]| && b[i][j].ground.Target? ==>
        b[i][j].content == Trophy(b[i][j].ground.color)
    {
      for col := 0 to |b[row]|
        invariant forall i, j :: 0 <= i < row && 0 <= j < |b[i]| && b[i][j].ground.Target? ==>
          b[i][j].content == Trophy(b[i][j].ground.color)
        invariant forall j :: 0 <= j < col && b[row][j].ground.Target? ==>
          b[row][j].content == Trophy(b[row][j].ground.color)
      {
        CellTable(b[row][col].ground, b[row][col].content);
        if !CellWon(b[row][col]) {
          return false;
        }
      }
    }
    return true;
  }

  /** Level.levelLost: scans every cell for one whose content is not lost (the player). */
  method LevelLost(lv: Level) returns (lost: bool)
    ensures lost <==> Grid.PlayerAbsent(lv.board)
  {
    var b: Board := lv.board;
    for row := 0 to |b|
      invariant forall i, j :: 0 <= i < row && 0 <= j < |b[i]| ==> b[i][j].content != Player
    {
      for col := 0 to |b[row]|
        invariant forall i, j :: 0 <= i < row && 0 <= j < |b[i]| ==> b[i][j].content != Player
        invariant forall j :: 0 <= j < col ==> b[row][j].content != Player
      {
        if !CellLost(b[row][col]) {
          return false;
        }
      }
    }
    return true;
  }
}
