// The ground/content capability predicates of the ice version of Sokoban
// (hw8/src/Sokoban.java): a small table over the pair of variants.
module Cells8 {
  import opened Basics

  /** The floor layer of a cell. */
  datatype Ground = Normal | Target(color: Color) | Hole | Ice

  type Cell8 = Cell<Ground>

  /** isFixed: Wall and Blank are fixed; Box, Trophy and Player are not. */
  predicate IsFixed(c: Content) { c.Wall? || c.Blank? }

  /** groundWon: only a target constrains its content, and then to a trophy of its colour. */
  predicate GroundWon(g: Ground, c: Content) {
    match g
    case Target(color) => ContentWon(c, color)
    case _ => true
  }

  /** groundFall: only a hole swallows, and only content that falls. */
  predicate GroundFall(g: Ground, c: Content) {
    g.Hole? && ContentFall(c)
  }

  /** groundSlide: only ice lets content slide, and only content that is not fixed. */
  predicate GroundSlide(g: Ground, c: Content) {
    g.Ice? && !IsFixed(c)
  }

  predicate CellWon(cell: Cell8) { GroundWon(cell.ground, cell.content) }
  predicate CellLost(cell: Cell8) { ContentLost(cell.content) }
  predicate CellFall(cell: Cell8) { GroundFall(cell.ground, cell.content) }
  predicate CellSlide(cell: Cell8) { GroundSlide(cell.ground, cell.content) }

  /** The cross-product table the double dispatch of the source implements, stated
      per variant: what wins, what falls, what slides, what moves. */
  lemma CellTable(g: Ground, c: Content)
    ensures GroundWon(g, c) <==> (g.Target? ==> c == Trophy(g.color))
    ensures GroundFall(g, c) <==> g == Hole && c != Blank
    ensures GroundSlide(g, c) <==> g == Ice && c in {Box, Player} + set col: Color :: Trophy(col)
    ensures IsVacant(c) ==> IsFixed(c)
    ensures GroundSlide(g, c) ==> !GroundFall(g, c) && !IsVacant(c)
    ensures ContentLost(c) <==> c != Player
  {
    if g == Ice && !IsFixed(c) && c.Trophy? {
      assert c == Trophy(c.color);
    }
  }

  /** Utils.makeGround of this version: the ice character is known. */
  function MakeGround(ch: char): (r: Result<Ground>)
    ensures r.Ok? <==> ch in "YGBRHI_"
    ensures r.Err? ==> r.error == InvalidGround(ch)
  {
    match ch
    case 'Y' => Ok(Target(Yellow))
    case 'G' => Ok(Target(Green))
    case 'B' => Ok(Target(Blue))
    case 'R' => Ok(Target(Red))
    case 'H' => Ok(Hole)
    case 'I' => Ok(Ice)
    case '_' => Ok(Normal)
    case _ => Err(InvalidGround(ch))
  }
}
