// The ground/content capability predicates of the first Sokoban version
// (hw7/src/Sokoban.java): no ice, and only walls are fixed.
module Cells7 {
  import opened Basics

  /** The floor layer of a cell. */
  datatype Ground = Normal | Target(color: Color) | Hole

  type Cell7 = Cell<Ground>

  /** isFixed: only a wall is fixed. */
  predicate IsFixed(c: Content) { c.Wall? }

  /** groundWon: only a target constrains its content, and then to a trophy of its colour. */
  predicate GroundWon(g: Ground, c: Content) {
    match g
    case Target(color) => ContentWon(c, color)
    case _ => true
  }

  /** groundFall: only a hole swallows, and only content that falls. */
  predicate GroundFall(g: Ground, c: Content) {
    g.Hole? && ContentFall(c)
  }

  predicate CellWon(cell: Cell7) { GroundWon(cell.ground, cell.content) }
  predicate CellLost(cell: Cell7) { ContentLost(cell.content) }
  predicate CellFall(cell: Cell7) { GroundFall(cell.ground, cell.content) }

  /** The cross-product table the double dispatch of the source implements, stated per
      variant: what wins, what falls, what is lost, what blocks. */
  lemma CellTable(g: Ground, c: Content)
    ensures GroundWon(g, c) <==> (g.Target? ==> c == Trophy(g.color))
    ensures GroundFall(g, c) <==> g == Hole && c != Blank
    ensures ContentLost(c) <==> c != Player
    ensures IsFixed(c) ==> !IsVacant(c)
  {
  }

  /** Utils.makeGround of this version: there is no ice character. */
  function MakeGround(ch: char): (r: Result<Ground>)
    ensures r.Ok? <==> ch in "YGBRH_"
    ensures r.Err? ==> r.error == InvalidGround(ch)
  {
    match ch
    case 'Y' => Ok(Target(Yellow))
    case 'G' => Ok(Target(Green))
    case 'B' => Ok(Target(Blue))
    case 'R' => Ok(Target(Red))
    case 'H' => Ok(Hole)
    case '_' => Ok(Normal)
    case _ => Err(InvalidGround(ch))
  }
}
