// The first Sokoban version (hw7/src/Sokoban.java) as it is written: a Level object whose
// board and player position the methods update in place, and a Sokoban world that holds
// one level and a gameOver flag. Each method is proved to follow the value definitions of
// Board7.
module Sokoban7 {
  import opened Basics
  import opened Cells7
  import opened Board7
  import Grid
  import LevelText

  /** The board and player position Level(String, String) builds from a description, or
      the exception it raises. */
  function Initial(groundStr: string, contentStr: string): Result<State> {
    var parsed :- LevelText.Parse(groundStr, contentStr, MakeGround);
    Ok(State(parsed.grid, parsed.player))
  }

  /** A description that parses has equally long texts and yields a board with at least
      one row whose cached position holds the player. */
  lemma InitialFacts(groundStr: string, contentStr: string)
    requires Initial(groundStr, contentStr).Ok?
    ensures |groundStr| == |contentStr|
    ensures var s := Initial(groundStr, contentStr).value;
      |s.board| > 0 && PlayerAt(s)
  {
    LevelText.ParsedPlayerCell(groundStr, contentStr, MakeGround);
  }

  /** The state after one key press of Sokoban.onKeyEvent, or the exception a move raises:
      an arrow key moves, "r" goes back to the initial state, and then the level settles. */
  function AfterKey(s: State, key: string, init: State): Result<State> {
    var moved :- if KeyToDirection(key).Some? then Move(s, KeyToDirection(key).value) else Ok(s);
    Ok(SettledState(if key == "r" then init else moved))
  }

  /** A key press keeps a board with rows and a cached position that addresses a cell. */
  lemma AfterKeyKeepsShape(s: State, key: string, init: State)
    requires |s.board| > 0 && Grid.InGrid(s.board, s.playerPos)
    requires |init.board| > 0 && Grid.InGrid(init.board, init.playerPos)
    ensures var r := AfterKey(s, key, init);
      r.Ok? ==> |r.value.board| > 0 && Grid.InGrid(r.value.board, r.value.playerPos)
  {
    var d := KeyToDirection(key);
    if d.Some? && Move(s, d.value).Ok? {
      MoveKeepsGrounds(s, d.value);
      MoveCarries(s, d.value);
    }
  }

  /** On a rectangular board whose cached position addresses a cell, no key press raises. */
  lemma AfterKeyNoRaise(s: State, key: string, init: State)
    requires Rectangular(s.board) && Grid.InGrid(s.board, s.playerPos)
    ensures AfterKey(s, key, init).Ok?
  {
    if KeyToDirection(key).Some? {
      MoveRaisesOnlyOffGrid(s, KeyToDirection(key).value);
    }
  }

  /** A key press other than "r" brings nothing onto the board: every content other than
      blank occurs afterwards at most as often as before. */
  lemma AfterKeyAddsNothing(s: State, key: string, init: State, c: Content)
    requires key != "r" && c != Blank && AfterKey(s, key, init).Ok?
    ensures Grid.Contents(AfterKey(s, key, init).value.board)[c] <= Grid.Contents(s.board)[c]
  {
    var d := KeyToDirection(key);
    var moved := if d.Some? then Move(s, d.value).value else s;
    if d.Some? {
      MoveContents(s, d.value);
    }
    SettledRemovesOnly(moved.board, c);
  }

  /** After "r" the level is the initial one, settled, whatever happened before. */
  lemma ResetForgets(s1: State, s2: State, init: State)
    ensures AfterKey(s1, "r", init) == AfterKey(s2, "r", init) == Ok(SettledState(init))
  {
    assert KeyToDirection("r").None?;
  }

  /** Level: the board and the cached player position change in place; the two
      description texts are kept for resetLevel. */
  class Level {
    var board: Board
    var playerPos: Posn
    const groundStr: string
    const contentStr: string

    function Current(): State
      reads this
    {
      State(board, playerPos)
    }

    /** The description texts are ones Level(String, String) accepts. */
    ghost predicate Described() {
      Initial(groundStr, contentStr).Ok?
    }

    /** The board has a row and the cached position addresses a cell. */
    ghost predicate Valid()
      reads this
    {
      |board| > 0 && Grid.InGrid(board, playerPos)
    }

    /** Level(String groundStr, String contentsStr) for a description it accepts. */
    constructor (groundStr: string, contentStr: string)
      requires Initial(groundStr, contentStr).Ok?
      ensures Described() && Valid() && Current() == Initial(groundStr, contentStr).value
      ensures this.groundStr == groundStr && this.contentStr == contentStr
    {
      InitialFacts(groundStr, contentStr);
      var grid := LevelText.MakeGridMethod(groundStr, contentStr, MakeGround);
      var pos := LevelText.FindPlayer(contentStr);
      board := grid.value;
      playerPos := pos.value;
      this.groundStr := groundStr;
      this.contentStr := contentStr;
    }

    /** Level.movePlayer: moves the player one cell in direction d, pushing what is ahead
        into a vacant cell beyond, when the rules allow; raised is the exception of a
        cell read that its row does not have, and then nothing has changed. */
    method MovePlayer(d: Direction) returns (raised: Option<Error>)
      requires Valid()
      modifies this
      ensures Valid()
      ensures var r := Move(old(Current()), d);
        && (r.Ok? ==> raised.None? && Current() == r.value)
        && (r.Err? ==> raised == Some(r.error) && Current() == old(Current()))
    {
      var b, p := board, playerPos;
      var moveToPos := MovePosn(p, d);
      var pushToPos := MovePosn(moveToPos, d);
      var topLeft := Posn(0, 0);
      var bottomRight := Posn(|b[0]| - 1, |b| - 1);
      if !WithinBounds(moveToPos, topLeft, bottomRight) {
        MoveStops(State(b, p), d);
        return None;
      }
      var playerCell := GetCell(b, p);
      var moveToCell := GetCell(b, moveToPos);
      if moveToCell.Err? {
        MoveRaises(State(b, p), d);
        return Some(moveToCell.error);
      }
      var moveToContent := moveToCell.value.content;
      if IsFixed(moveToContent) {
        MoveStops(State(b, p), d);
        return None;
      }
      if WithinBounds(pushToPos, topLeft, bottomRight) {
        var pushToCell := GetCell(b, pushToPos);
        if pushToCell.Err? {
          MoveRaises(State(b, p), d);
          return Some(pushToCell.error);
        }
        if IsVacant(pushToCell.value.content) {
          b := Pushed(b, moveToPos, pushToPos);
          moveToContent := Blank;
        }
      }
      assert b == PushPhase(board, moveToPos, pushToPos);
      assert moveToContent == b[moveToPos.row][moveToPos.col].content;
      assert Grid.InGrid(b, p) && Grid.InGrid(b, moveToPos);
      MoveProceeds(State(board, p), d);
      if IsVacant(moveToContent) {
        b := Stepped(b, p, moveToPos);
        p := moveToPos;
      }
      board, playerPos := b, p;
      raised := None;
    }

    /** Level.resetLevel: the board and the player position as the description gives them. */
    method ResetLevel()
      requires Described()
      modifies this
      ensures Valid() && Current() == Initial(groundStr, contentStr).value
    {
      InitialFacts(groundStr, contentStr);
      var grid := LevelText.MakeGridMethod(groundStr, contentStr, MakeGround);
      var pos := LevelText.FindPlayer(contentStr);
      board := grid.value;
      playerPos := pos.value;
    }

    /** Level.levelWon: every cell is won, that is, every target holds its trophy. */
    method LevelWon() returns (won: bool)
      ensures won <==> AllTargetsMatched(board)
    {
      for row := 0 to |board|
        invariant forall i, j :: 0 <= i < row && 0 <= j < |board[i]| && board[i][j].ground.Target? ==>
          board[i][j].content == Trophy(board[i][j].ground.color)
      {
        for col := 0 to |board[row]|
          invariant forall i, j :: 0 <= i < row && 0 <= j < |board[i]| && board[i][j].ground.Target? ==>
            board[i][j].content == Trophy(board[i][j].ground.color)
          invariant forall j :: 0 <= j < col && board[row][j].ground.Target? ==>
            board[row][j].content == Trophy(board[row][j].ground.color)
        {
          CellTable(board[row][col].ground, board[row][col].content);
          if !CellWon(board[row][col]) {
            return false;
          }
        }
      }
      return true;
    }

    /** Level.levelLost: every cell is lost, that is, no cell holds the player. */
    method LevelLost() returns (lost: bool)
      ensures lost <==> Grid.PlayerAbsent(board)
    {
      for row := 0 to |board|
        invariant forall i, j :: 0 <= i < row && 0 <= j < |board[i]| ==> board[i][j].content != Player
      {
        for col := 0 to |board[row]|
          invariant forall i, j :: 0 <= i < row && 0 <= j < |board[i]| ==> board[i][j].content != Player
          invariant forall j :: 0 <= j < col ==> board[row][j].content != Player
        {
          if !CellLost(board[row][col]) {
            return false;
          }
        }
      }
      return true;
    }

    /** Level.updateLevel: every hole that holds something becomes normal blank floor,
        cell by cell, in place. */
    method UpdateLevel()
      modifies this
      ensures board == Settled(old(board)) && playerPos == old(playerPos)
      ensures old(Valid()) ==> Valid()
    {
      ghost var b0 := board;
      for row := 0 to |board|
        invariant Grid.SameShape(b0, board) && playerPos == old(playerPos)
        invariant forall i, j :: 0 <= i < |b0| && 0 <= j < |b0[i]| ==>
          board[i][j] == if i < row then SettledCell(b0[i][j]) else b0[i][j]
      {
        for col := 0 to |board[row]|
          invariant Grid.SameShape(b0, board) && playerPos == old(playerPos)
          invariant forall i, j :: 0 <= i < |b0| && 0 <= j < |b0[i]| ==>
            board[i][j] == if i < row || (i == row && j < col) then SettledCell(b0[i][j]) else b0[i][j]
        {
          if CellFall(board[row][col]) {
            board := board[row := board[row][col := Cell(Normal, Blank)]];
          }
        }
      }
      var settled := Settled(b0);
      forall i | 0 <= i < |b0|
        ensures board[i] == settled[i]
      {
      }
    }
  }

  /** Level(String, String) with its exceptions as Err: unequal text lengths, a grid the
      texts do not describe, or no player. */
  method NewLevel(groundStr: string, contentStr: string) returns (r: Result<Level>)
    ensures r.Err? <==> Initial(groundStr, contentStr).Err?
    ensures r.Err? ==> r.error == Initial(groundStr, contentStr).error
    ensures r.Ok? ==> fresh(r.value) && r.value.Described() && r.value.Valid() && r.value.Current() == Initial(groundStr, contentStr).value
  {
    if |groundStr| != |contentStr| {
      return Err(LengthMismatch);
    }
    var grid := LevelText.MakeGridMethod(groundStr, contentStr, MakeGround);
    if grid.Err? {
      return Err(grid.error);
    }
    var pos := LevelText.FindPlayer(contentStr);
    if pos.Err? {
      return Err(pos.error);
    }
    var level := new Level(groundStr, contentStr);
    return Ok(level);
  }

  /** The Sokoban world: one level, updated in place, and whether the game is over. */
  class Sokoban {
    const level: Level
    var gameOver: bool

    ghost predicate Valid()
      reads this, level
    {
      level.Described() && level.Valid()
    }

    /** Sokoban(Level): takes the level and brings the game state up to date. */
    constructor (level: Level)
      requires level.Described() && level.Valid()
      modifies level
      ensures Valid() && this.level == level
      ensures level.Current() == SettledState(old(level.Current()))
      ensures gameOver == GameOver(level.board)
    {
      this.level := level;
      new;
      UpdateGameState();
    }

    /** Sokoban.updateGameState: settle the level, then record whether it is lost or won. */
    method UpdateGameState()
      requires Valid()
      modifies this, level
      ensures Valid()
      ensures level.Current() == SettledState(old(level.Current()))
      ensures gameOver == GameOver(level.board)
    {
      level.UpdateLevel();
      var lost := level.LevelLost();
      var won := level.LevelWon();
      gameOver := lost || won;
    }

    /** Sokoban.onKeyEvent: an arrow key moves the player, "r" resets the level, and then
        the game state is brought up to date; an exception of the move ends the handler
        before anything else happens. */
    method OnKeyEvent(key: string) returns (raised: Option<Error>)
      requires Valid()
      modifies this, level
      ensures Valid()
      ensures var r := AfterKey(old(level.Current()), key, Initial(level.groundStr, level.contentStr).value);
        && (r.Ok? ==> raised.None? && level.Current() == r.value && gameOver == GameOver(level.board))
        && (r.Err? ==> raised == Some(r.error) && level.Current() == old(level.Current()) && gameOver == old(gameOver))
    {
      var d := KeyToDirection(key);
      if d.Some? {
        raised := level.MovePlayer(d.value);
        if raised.Some? {
          return;
        }
      }
      if key == "r" {
        level.ResetLevel();
      }
      UpdateGameState();
      raised := None;
    }
  }
}
