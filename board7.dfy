// The board of the first Sokoban version (hw7/src/Sokoban.java) as values: the move
// Level.movePlayer performs in place, the settling of Level.updateLevel, and the win and
// loss conditions. The class Sokoban7.Level is proved to follow these definitions.
module Board7 {
  import opened Basics
  import opened Cells7
  import opened Grid

  /** Rows of cells, row-major. Nothing in this version forces the rows to be equally long. */
  type Board = seq<seq<Cell7>>

  /** The part of a level that movement changes: the board and the cached player position. */
  datatype State = State(board: Board, playerPos: Posn)

  predicate Rectangular(b: Board) {
    |b| > 0 && forall row :: 0 <= row < |b| ==> |b[row]| == |b[0]|
  }

  /** The box Level.movePlayer checks against: (0, 0) to (length of row 0 - 1, rows - 1). */
  predicate InBox(b: Board, p: Posn)
    requires |b| > 0
  {
    WithinBounds(p, Posn(0, 0), Posn(|b[0]| - 1, |b| - 1))
  }

  /** Level.getCell: the cell at p, or the index error of ArrayList.get. */
  function GetCell(b: Board, p: Posn): (r: Result<Cell7>)
    ensures r.Ok? <==> InGrid(b, p)
    ensures r.Ok? ==> r.value == b[p.row][p.col]
    ensures r.Err? ==> r.error == IndexOutOfBounds
  {
    if InGrid(b, p) then Ok(b[p.row][p.col]) else Err(IndexOutOfBounds)
  }

  // ------------------------------------------------------------ movement

  /** The cells a push leaves behind: whatever is at moveTo goes to the vacant pushTo, and
      moveTo is left blank. */
  function Pushed(b: Board, moveTo: Posn, pushTo: Posn): (r: Board)
    requires InGrid(b, moveTo) && InGrid(b, pushTo) && moveTo != pushTo
    ensures SameShape(b, r)
    ensures forall q :: InGrid(r, q) <==> InGrid(b, q)
    ensures r[moveTo.row][moveTo.col].content == Blank
  {
    SetContent(SetContent(b, pushTo, b[moveTo.row][moveTo.col].content), moveTo, Blank)
  }

  /** The first half of Level.movePlayer: a push when the cell beyond lies inside the box
      and is vacant, nothing otherwise. */
  function PushPhase(b: Board, moveTo: Posn, pushTo: Posn): (r: Board)
    requires |b| > 0 && InGrid(b, moveTo) && moveTo != pushTo
    requires InBox(b, pushTo) ==> InGrid(b, pushTo)
    ensures SameShape(b, r)
  {
    if InBox(b, pushTo) && IsVacant(b[pushTo.row][pushTo.col].content) then Pushed(b, moveTo, pushTo) else b
  }

  /** The cells a step leaves behind: the player's content goes to the vacant moveTo, and
      the player's cell is left blank. */
  function Stepped(b: Board, p: Posn, moveTo: Posn): (r: Board)
    requires InGrid(b, p) && InGrid(b, moveTo) && p != moveTo
    ensures SameShape(b, r)
    ensures forall q :: InGrid(r, q) <==> InGrid(b, q)
  {
    SetContent(SetContent(b, moveTo, b[p.row][p.col].content), p, Blank)
  }

  /** Moving the content of `from` into the blank cell `to` and blanking `from` exchanges
      the two contents: grounds stay, no other cell changes, the multiset of contents stays. */
  lemma MoveIntoBlank(b: Board, from: Posn, to: Posn)
    requires InGrid(b, from) && InGrid(b, to) && from != to && b[to.row][to.col].content == Blank
    ensures var r := SetContent(SetContent(b, to, b[from.row][from.col].content), from, Blank);
      && r[to.row][to.col] == Cell(b[to.row][to.col].ground, b[from.row][from.col].content)
      && r[from.row][from.col] == Cell(b[from.row][from.col].ground, Blank)
      && (forall row, col :: 0 <= row < |b| && 0 <= col < |b[row]| && Posn(col, row) != from && Posn(col, row) != to ==>
            r[row][col] == b[row][col])
      && Contents(r) == Contents(b)
  {
    ExchangeContents(b, to, from);
  }

  /** Level.movePlayer as a function of the state before the move: Err when the source
      raises (an empty board, or a cell it reads that its row does not have); otherwise the
      state after the move, which is the state before it when the player cannot move. */
  function Move(s: State, d: Direction): (r: Result<State>)
    ensures r.Err? ==> r.error == IndexOutOfBounds
  {
    var b, p := s.board, s.playerPos;
    var moveTo := MovePosn(p, d);
    var pushTo := MovePosn(moveTo, d);
    if |b| == 0 then Err(IndexOutOfBounds)
    else if !InBox(b, moveTo) then Ok(s)
    else if !InGrid(b, p) || !InGrid(b, moveTo) then Err(IndexOutOfBounds)
    else if IsFixed(b[moveTo.row][moveTo.col].content) then Ok(s)
    else if InBox(b, pushTo) && !InGrid(b, pushTo) then Err(IndexOutOfBounds)
    else
      var b1: Board := PushPhase(b, moveTo, pushTo);
      if IsVacant(b1[moveTo.row][moveTo.col].content) then Ok(State(Stepped(b1, p, moveTo), moveTo))
      else Ok(s)
  }

  /** A move that stops before any change: the cell ahead lies outside the box, or it
      holds a fixed content. */
  lemma MoveStops(s: State, d: Direction)
    requires var moveTo := MovePosn(s.playerPos, d);
      && |s.board| > 0
      && (!InBox(s.board, moveTo)
          || (InGrid(s.board, s.playerPos) && InGrid(s.board, moveTo) && IsFixed(s.board[moveTo.row][moveTo.col].content)))
    ensures Move(s, d) == Ok(s)
  {
  }

  /** A move that reads a cell its row does not have raises before any change. */
  lemma MoveRaises(s: State, d: Direction)
    requires var moveTo := MovePosn(s.playerPos, d);
      var pushTo := MovePosn(moveTo, d);
      && |s.board| > 0 && InBox(s.board, moveTo) && InGrid(s.board, s.playerPos)
      && (!InGrid(s.board, moveTo)
          || (!IsFixed(s.board[moveTo.row][moveTo.col].content) && InBox(s.board, pushTo) && !InGrid(s.board, pushTo)))
    ensures Move(s, d) == Err(IndexOutOfBounds)
  {
  }

  /** A move past every check that can stop it or raise: the push phase, then the step
      when it left the cell ahead vacant. */
  lemma MoveProceeds(s: State, d: Direction)
    requires var moveTo := MovePosn(s.playerPos, d);
      var pushTo := MovePosn(moveTo, d);
      && |s.board| > 0 && InBox(s.board, moveTo) && InGrid(s.board, s.playerPos) && InGrid(s.board, moveTo)
      && !IsFixed(s.board[moveTo.row][moveTo.col].content)
      && (InBox(s.board, pushTo) ==> InGrid(s.board, pushTo))
    ensures var p, moveTo := s.playerPos, MovePosn(s.playerPos, d);
      var b1 := PushPhase(s.board, moveTo, MovePosn(moveTo, d));
      Move(s, d) == Ok(if IsVacant(b1[moveTo.row][moveTo.col].content) then State(Stepped(b1, p, moveTo), moveTo) else s)
  {
  }

  /** A rectangular board whose cached position addresses a cell never makes a move raise. */
  lemma MoveRaisesOnlyOffGrid(s: State, d: Direction)
    ensures Move(s, d).Err? ==> !(Rectangular(s.board) && InGrid(s.board, s.playerPos))
    ensures Move(s, d).Err? ==> Move(s, d).error == IndexOutOfBounds
  {
  }

  /** The push phase keeps the shape, every ground, every cell other than moveTo and
      pushTo, and the multiset of contents. */
  lemma PushPhaseFacts(b: Board, moveTo: Posn, pushTo: Posn)
    requires |b| > 0 && InGrid(b, moveTo) && moveTo != pushTo
    requires InBox(b, pushTo) ==> InGrid(b, pushTo)
    ensures var r := PushPhase(b, moveTo, pushTo);
      && (forall row, col :: 0 <= row < |b| && 0 <= col < |b[row]| ==> r[row][col].ground == b[row][col].ground)
      && (forall row, col :: 0 <= row < |b| && 0 <= col < |b[row]| && Posn(col, row) != moveTo && Posn(col, row) != pushTo ==>
            r[row][col] == b[row][col])
      && Contents(r) == Contents(b)
  {
    if InBox(b, pushTo) && IsVacant(b[pushTo.row][pushTo.col].content) {
      var r: Board := Pushed(b, moveTo, pushTo);
      MoveIntoBlank(b, moveTo, pushTo);
      forall row, col | 0 <= row < |b| && 0 <= col < |b[row]|
        ensures r[row][col].ground == b[row][col].ground
      {
        if Posn(col, row) == moveTo {
        } else if Posn(col, row) == pushTo {
        }
      }
    }
  }

  /** The two outcomes of a move that returns: nothing changes, or the push phase runs
      and the player's content steps into the cell ahead, which it left vacant. */
  lemma MoveCases(s: State, d: Direction)
    requires Move(s, d).Ok?
    ensures var b, p := s.board, s.playerPos;
      var moveTo := MovePosn(p, d);
      var pushTo := MovePosn(moveTo, d);
      || Move(s, d).value == s
      || (&& |b| > 0 && InGrid(b, p) && InGrid(b, moveTo) && (InBox(b, pushTo) ==> InGrid(b, pushTo))
          && PushPhase(b, moveTo, pushTo)[moveTo.row][moveTo.col].content == Blank
          && Move(s, d).value == State(Stepped(PushPhase(b, moveTo, pushTo), p, moveTo), moveTo))
  {
  }

  /** A move keeps the shape of the board and every ground. */
  lemma MoveKeepsGrounds(s: State, d: Direction)
    requires Move(s, d).Ok?
    ensures var r := Move(s, d).value;
      && SameShape(s.board, r.board)
      && (forall row, col :: 0 <= row < |s.board| && 0 <= col < |s.board[row]| ==>
            r.board[row][col].ground == s.board[row][col].ground)
  {
    var b, p := s.board, s.playerPos;
    var moveTo := MovePosn(p, d);
    var pushTo := MovePosn(moveTo, d);
    MoveCases(s, d);
    if Move(s, d).value != s {
      var b1: Board := PushPhase(b, moveTo, pushTo);
      PushPhaseFacts(b, moveTo, pushTo);
      MoveIntoBlank(b1, p, moveTo);
      var r: Board := Stepped(b1, p, moveTo);
      forall row, col | 0 <= row < |b| && 0 <= col < |b[row]|
        ensures r[row][col].ground == b[row][col].ground
      {
        if Posn(col, row) == moveTo {
        } else if Posn(col, row) == p {
        }
      }
    }
  }

  /** A move changes no cell other than the player's, the one it moves to and the one
      beyond. */
  lemma MoveFrame(s: State, d: Direction)
    requires Move(s, d).Ok?
    ensures var r := Move(s, d).value;
      var moveTo := MovePosn(s.playerPos, d);
      var pushTo := MovePosn(moveTo, d);
      forall row, col ::
        0 <= row < |s.board| && 0 <= col < |s.board[row]| && Posn(col, row) !in {s.playerPos, moveTo, pushTo} ==>
        r.board[row][col] == s.board[row][col]
  {
    var b, p := s.board, s.playerPos;
    var moveTo := MovePosn(p, d);
    var pushTo := MovePosn(moveTo, d);
    MoveCases(s, d);
    if Move(s, d).value != s {
      var b1: Board := PushPhase(b, moveTo, pushTo);
      PushPhaseFacts(b, moveTo, pushTo);
      MoveIntoBlank(b1, p, moveTo);
      var r: Board := Stepped(b1, p, moveTo);
      forall row, col | 0 <= row < |b| && 0 <= col < |b[row]| && Posn(col, row) !in {p, moveTo, pushTo}
        ensures r[row][col] == b[row][col]
      {
        assert Posn(col, row) != p && Posn(col, row) != moveTo && Posn(col, row) != pushTo;
      }
    }
  }

  /** A move either changes nothing or carries the player's content and the cached
      position one cell on. */
  lemma MoveCarries(s: State, d: Direction)
    requires Move(s, d).Ok?
    ensures var r := Move(s, d).value;
      var moveTo := MovePosn(s.playerPos, d);
      || r == s
      || (&& r.playerPos == moveTo && InGrid(s.board, moveTo)
          && r.board[moveTo.row][moveTo.col].content == s.board[s.playerPos.row][s.playerPos.col].content)
  {
    var b, p := s.board, s.playerPos;
    var moveTo := MovePosn(p, d);
    MoveCases(s, d);
    if Move(s, d).value != s {
      var b1: Board := PushPhase(b, moveTo, MovePosn(moveTo, d));
      PushPhaseFacts(b, moveTo, MovePosn(moveTo, d));
      assert b1[p.row][p.col] == b[p.row][p.col];
    }
  }

  /** A move only rearranges contents: the multiset of contents on the board is the same
      before and after, so nothing is created or lost. */
  lemma MoveContents(s: State, d: Direction)
    requires Move(s, d).Ok?
    ensures Contents(Move(s, d).value.board) == Contents(s.board)
  {
    var b, p := s.board, s.playerPos;
    var moveTo := MovePosn(p, d);
    var pushTo := MovePosn(moveTo, d);
    MoveCases(s, d);
    if Move(s, d).value != s {
      PushPhaseFacts(b, moveTo, pushTo);
      MoveIntoBlank(PushPhase(b, moveTo, pushTo), p, moveTo);
    }
  }

  /** The player's cell. */
  predicate PlayerAt(s: State) {
    InGrid(s.board, s.playerPos) && s.board[s.playerPos.row][s.playerPos.col].content == Player
  }

  /** When the cached position names the player's cell, it still does after a move. */
  lemma MoveKeepsPlayer(s: State, d: Direction)
    requires PlayerAt(s) && Move(s, d).Ok?
    ensures PlayerAt(Move(s, d).value)
  {
    MoveCarries(s, d);
  }

  /** Facing a wall, or facing a content that has no vacant cell inside the box behind it,
      the player stays and the board is unchanged. */
  lemma MoveBlocked(s: State, d: Direction)
    requires InGrid(s.board, s.playerPos)
    requires var moveTo := MovePosn(s.playerPos, d);
      var pushTo := MovePosn(moveTo, d);
      && InGrid(s.board, moveTo) && InBox(s.board, moveTo)
      && !IsVacant(s.board[moveTo.row][moveTo.col].content)
      && (IsFixed(s.board[moveTo.row][moveTo.col].content)
          || !InBox(s.board, pushTo)
          || (InGrid(s.board, pushTo) && !IsVacant(s.board[pushTo.row][pushTo.col].content)))
    ensures Move(s, d) == Ok(s)
  {
  }

  /** A step onto a blank cell: the player's content moves there, its old cell becomes
      blank, and the cached position follows. A blank has nothing to push, so whatever
      lies beyond stays as it is. */
  lemma MoveStep(s: State, d: Direction)
    requires InGrid(s.board, s.playerPos)
    requires var moveTo := MovePosn(s.playerPos, d);
      var pushTo := MovePosn(moveTo, d);
      && InGrid(s.board, moveTo) && InBox(s.board, moveTo)
      && s.board[moveTo.row][moveTo.col].content == Blank
      && (InBox(s.board, pushTo) ==> InGrid(s.board, pushTo))
    ensures var p, moveTo := s.playerPos, MovePosn(s.playerPos, d);
      Move(s, d) == Ok(State(SetContent(SetContent(s.board, moveTo, s.board[p.row][p.col].content), p, Blank), moveTo))
  {
    var b, p := s.board, s.playerPos;
    var moveTo := MovePosn(p, d);
    var pushTo := MovePosn(moveTo, d);
    if InBox(b, pushTo) && IsVacant(b[pushTo.row][pushTo.col].content) {
      SetContentSame(b, pushTo);
      SetContentSame(b, moveTo);
    }
  }

  /** A push: the content ahead moves one cell on into the vacant cell beyond, the player
      takes its place, and the player's old cell becomes blank. */
  lemma MovePush(s: State, d: Direction)
    requires InGrid(s.board, s.playerPos)
    requires var moveTo := MovePosn(s.playerPos, d);
      var pushTo := MovePosn(moveTo, d);
      && InGrid(s.board, moveTo) && InBox(s.board, moveTo)
      && InGrid(s.board, pushTo) && InBox(s.board, pushTo)
      && !IsFixed(s.board[moveTo.row][moveTo.col].content)
      && s.board[pushTo.row][pushTo.col].content == Blank
    ensures var b, p, moveTo := s.board, s.playerPos, MovePosn(s.playerPos, d);
      var pushTo := MovePosn(moveTo, d);
      var r := Move(s, d).value;
      && Move(s, d).Ok? && r.playerPos == moveTo
      && r.board[pushTo.row][pushTo.col] == Cell(b[pushTo.row][pushTo.col].ground, b[moveTo.row][moveTo.col].content)
      && r.board[moveTo.row][moveTo.col] == Cell(b[moveTo.row][moveTo.col].ground, b[p.row][p.col].content)
      && r.board[p.row][p.col] == Cell(b[p.row][p.col].ground, Blank)
  {
  }

  // ------------------------------------------------------------ settling

  function SettledCell(cell: Cell7): (r: Cell7)
    ensures CellFall(cell) ==> r == Cell(Normal, Blank)
    ensures !CellFall(cell) ==> r == cell
  {
    if CellFall(cell) then Cell(Normal, Blank) else cell
  }

  /** The board Level.updateLevel leaves: every hole holding something becomes normal blank
      floor, every other cell stays. */
  function Settled(b: Board): (r: Board)
    ensures SameShape(b, r)
    ensures forall row, col :: 0 <= row < |b| && 0 <= col < |b[row]| ==>
      r[row][col] == (if b[row][col].ground == Hole && b[row][col].content != Blank then Cell(Normal, Blank) else b[row][col])
  {
    seq(|b|, row requires 0 <= row < |b| => seq(|b[row]|, col requires 0 <= col < |b[row]| => SettledCell(b[row][col])))
  }

  /** After settling no hole holds anything and settling again changes nothing. */
  lemma SettledIsSettled(b: Board)
    ensures forall row, col :: 0 <= row < |b| && 0 <= col < |b[row]| && Settled(b)[row][col].ground == Hole ==>
      Settled(b)[row][col].content == Blank
    ensures Settled(Settled(b)) == Settled(b)
  {
    var s := Settled(b);
    var ss := Settled(s);
    forall row | 0 <= row < |b|
      ensures ss[row] == s[row]
    {
      forall col | 0 <= col < |b[row]|
        ensures ss[row][col] == s[row][col]
      {
      }
    }
  }

  /** Settling never brings anything onto the board: every content other than blank occurs
      on the settled board at most as often as before. */
  lemma {:induction false} SettledRemovesOnly(b: Board, c: Content)
    requires c != Blank
    ensures Contents(Settled(b))[c] <= Contents(b)[c]
    decreases |b|
  {
    if |b| > 0 {
      var last := |b| - 1;
      assert Settled(b)[..last] == Settled(b[..last]);
      SettledRemovesOnly(b[..last], c);
      SettledRowRemovesOnly(b[last], c);
      assert Settled(b)[last] == seq(|b[last]|, col requires 0 <= col < |b[last]| => SettledCell(b[last][col]));
    }
  }

  lemma {:induction false} SettledRowRemovesOnly(row: seq<Cell7>, c: Content)
    requires c != Blank
    ensures var settled := seq(|row|, col requires 0 <= col < |row| => SettledCell(row[col]));
      RowContents(settled)[c] <= RowContents(row)[c]
    decreases |row|
  {
    var settled := seq(|row|, col requires 0 <= col < |row| => SettledCell(row[col]));
    if |row| > 0 {
      var last := |row| - 1;
      var init := row[..last];
      SettledRowRemovesOnly(init, c);
      var settledInit := seq(|init|, col requires 0 <= col < |init| => SettledCell(init[col]));
      assert settled == settledInit + [SettledCell(row[last])];
      RowContentsSnoc(settledInit, SettledCell(row[last]));
      assert row == init + [row[last]];
      RowContentsSnoc(init, row[last]);
    }
  }

  /** The settled state: the board settles, the cached position stays. */
  function SettledState(s: State): (r: State)
    ensures r.playerPos == s.playerPos && SameShape(s.board, r.board)
  {
    State(Settled(s.board), s.playerPos)
  }

  // ------------------------------------------------------------ win and loss

  /** The win condition as the game means it: every target holds the trophy of its colour. */
  predicate AllTargetsMatched(b: Board) {
    forall row, col :: 0 <= row < |b| && 0 <= col < |b[row]| && b[row][col].ground.Target? ==>
      b[row][col].content == Trophy(b[row][col].ground.color)
  }

  /** What Sokoban.updateGameState records in gameOver. */
  predicate GameOver(b: Board) {
    PlayerAbsent(b) || AllTargetsMatched(b)
  }

  /** A player who does not stand on a hole survives settling, so the level is not lost. */
  lemma SettledKeepsPlayer(s: State)
    requires PlayerAt(s) && s.board[s.playerPos.row][s.playerPos.col].ground != Hole
    ensures PlayerAt(SettledState(s)) && !PlayerAbsent(Settled(s.board))
  {
  }

  /** A player who stands on a hole falls: after settling the cell is normal blank floor. */
  lemma SettledDropsPlayer(s: State)
    requires PlayerAt(s) && s.board[s.playerPos.row][s.playerPos.col].ground == Hole
    ensures Settled(s.board)[s.playerPos.row][s.playerPos.col] == Cell(Normal, Blank)
  {
  }
}
