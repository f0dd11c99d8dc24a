// Shared vocabulary of both Sokoban versions: positions, directions, colours,
// the content layer of a cell, and the error outcomes of the Java code.
module Basics {

  /** The four trophy / target colours the level parser knows. */
  datatype Color = Red | Green | Blue | Yellow

  /** The four directions a key event can name ("up", "right", "down", "left"). */
  datatype Direction = Up | Right | Down | Left

  /** A board coordinate: col grows to the right, row grows downwards, (0, 0) is top left. */
  datatype Posn = Posn(col: int, row: int)

  /** The adjacent position in the given direction (Posn.movePosn). */
  function MovePosn(p: Posn, d: Direction): Posn {
    match d
    case Up => Posn(p.col, p.row - 1)
    case Right => Posn(p.col + 1, p.row)
    case Down => Posn(p.col, p.row + 1)
    case Left => Posn(p.col - 1, p.row)
  }

  /** Inclusive bounding-box test (Posn.withinBounds). */
  predicate WithinBounds(p: Posn, topLeft: Posn, bottomRight: Posn) {
    topLeft.col <= p.col && topLeft.row <= p.row && bottomRight.col >= p.col && bottomRight.row >= p.row
  }

  /** The key names that move the player. */
  function KeyToDirection(key: string): (d: Option<Direction>)
    ensures d.Some? <==> key in {"up", "down", "right", "left"}
  {
    if key == "up" then Some(Up)
    else if key == "down" then Some(Down)
    else if key == "right" then Some(Right)
    else if key == "left" then Some(Left)
    else None
  }

  /** The content layer of a cell. The player's facing string is never read by any rule and is not kept. */
  datatype Content = Blank | Wall | Box | Trophy(color: Color) | Player

  /** A cell: a ground of the version's own ground type and a content. */
  datatype Cell<G> = Cell(ground: G, content: Content)

  // Content predicates that both versions define identically.

  /** isVacant: only Blank is vacant. */
  predicate IsVacant(c: Content) { c.Blank? }

  /** contentLost: every content except the player counts as lost. */
  predicate ContentLost(c: Content) { !c.Player? }

  /** contentFall: every content except Blank falls into a hole. */
  predicate ContentFall(c: Content) { !c.Blank? }

  /** contentWon on a target of the given colour: only a trophy of that colour wins. */
  predicate ContentWon(c: Content, target: Color) { c.Trophy? && c.color == target }

  datatype Option<+T> = None | Some(value: T)

  /** The exceptions the Java code can raise, as values. */
  datatype Error =
    | OutOfBounds          // Level.findCell on a position outside the board
    | IndexOutOfBounds     // ArrayList.get / String.substring past the end
    | LengthMismatch       // Level(String, String) with texts of different lengths
    | InvalidGround(ch: char)
    | InvalidContent(ch: char)
    | NoPlayer             // Utils.findPlayer found no player character

  datatype Result<+T> = Ok(value: T) | Err(error: Error) {
    predicate IsFailure() { Err? }

    function PropagateFailure<U>(): Result<U>
      requires Err?
    {
      Err(error)
    }

    function Extract(): T
      requires Ok?
    {
      value
    }
  }
}
