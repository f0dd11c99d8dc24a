// The board of the ice version: bounds-checked addressing, the content swap every
// movement is built from, hole settling, and the win / loss conditions.
module Board8 {
  import opened Basics
  import opened Cells8
  import Grid

  /** Rows of cells, row-major; the engine works on rectangular boards. */
  type Board = seq<seq<Cell8>>

  predicate Rectangular(b: Board) {
    |b| > 0 && forall row :: 0 <= row < |b| ==> |b[row]| == |b[0]|
  }

  function Width(b: Board): nat
    requires |b| > 0
  {
    |b[0]|
  }

  /** The bounds test of findCell and canMoveTo: (0, 0) to (width - 1, height - 1). */
  predicate InBounds(b: Board, p: Posn)
    requires |b| > 0
  {
    WithinBounds(p, Posn(0, 0), Posn(Width(b) - 1, |b| - 1))
  }

  /** Level.findCell: the cell at p, or the out-of-bounds exception. */
  function FindCell(b: Board, p: Posn): (r: Result<Cell8>)
    requires Rectangular(b)
    ensures r.Ok? <==> 0 <= p.row < |b| && 0 <= p.col < |b[p.row]|
    ensures r.Ok? ==> r.value == b[p.row][p.col]
    ensures r.Err? ==> r.error == OutOfBounds
  {
    if !InBounds(b, p) then Err(OutOfBounds) else Ok(b[p.row][p.col])
  }

  /** AContent.canMoveTo: whether content c may move onto position p of the board. */
  function CanMoveTo(c: Content, p: Posn, b: Board): (r: bool)
    requires Rectangular(b)
    ensures r <==> InBounds(b, p) && (c.Box? || c.Trophy? || c.Player?) && b[p.row][p.col].content == Blank
  {
    if !InBounds(b, p) then false
    else if IsFixed(c) then false
    else IsVacant(b[p.row][p.col].content)
  }

  // ------------------------------------------------------------ the swap

  function SwapCell(b: Board, p1: Posn, p2: Posn, row: int, col: int): Cell8
    requires Rectangular(b) && InBounds(b, p1) && InBounds(b, p2)
    requires 0 <= row < |b| && 0 <= col < Width(b)
  {
    var here := b[row][col];
    if Posn(col, row) == p1 then Cell(here.ground, b[p2.row][p2.col].content)
    else if Posn(col, row) == p2 then Cell(here.ground, b[p1.row][p1.col].content)
    else here
  }

  function SwappedRow(b: Board, p1: Posn, p2: Posn, row: int): seq<Cell8>
    requires Rectangular(b) && InBounds(b, p1) && InBounds(b, p2)
    requires 0 <= row < |b|
  {
    seq(Width(b), col requires 0 <= col < Width(b) => SwapCell(b, p1, p2, row, col))
  }

  /** The board of Level.switchContents: same shape; SwappedCells says what is in it. */
  function Swapped(b: Board, p1: Posn, p2: Posn): (r: Board)
    requires Rectangular(b) && InBounds(b, p1) && InBounds(b, p2)
    ensures Rectangular(r) && |r| == |b| && Width(r) == Width(b)
  {
    seq(|b|, row requires 0 <= row < |b| => SwappedRow(b, p1, p2, row))
  }

  /** The contents at p1 and p2 are exchanged, every ground stays, and every other cell
      is unchanged. */
  lemma SwappedCells(b: Board, p1: Posn, p2: Posn)
    requires Rectangular(b) && InBounds(b, p1) && InBounds(b, p2)
    ensures var r := Swapped(b, p1, p2);
      && (forall row, col :: 0 <= row < |b| && 0 <= col < Width(b) ==> r[row][col].ground == b[row][col].ground)
      && r[p1.row][p1.col].content == b[p2.row][p2.col].content
      && r[p2.row][p2.col].content == b[p1.row][p1.col].content
      && (forall row, col :: 0 <= row < |b| && 0 <= col < Width(b) && Posn(col, row) != p1 && Posn(col, row) != p2 ==>
            r[row][col] == b[row][col])
  {
  }

  /** A swap is the exchange of two contents written as two content replacements. */
  lemma SwappedIsExchange(b: Board, p1: Posn, p2: Posn)
    requires Rectangular(b) && InBounds(b, p1) && InBounds(b, p2)
    ensures Swapped(b, p1, p2) ==
      Grid.SetContent(Grid.SetContent(b, p1, b[p2.row][p2.col].content), p2, b[p1.row][p1.col].content)
  {
    var c1, c2 := b[p1.row][p1.col].content, b[p2.row][p2.col].content;
    var e1: Board := Grid.SetContent(b, p1, c2);
    var e: Board := Grid.SetContent(e1, p2, c1);
    var r := Swapped(b, p1, p2);
    SwappedCells(b, p1, p2);
    forall row | 0 <= row < |b|
      ensures r[row] == e[row]
    {
      forall col | 0 <= col < Width(b)
        ensures r[row][col] == e[row][col]
      {
        var q := Posn(col, row);
        if q == p2 {
          assert e[row][col] == Cell(e1[row][col].ground, c1);
        } else if q == p1 {
          assert e[row][col] == e1[row][col];
        } else {
          assert e[row][col] == e1[row][col];
        }
      }
    }
  }

  /** A swap keeps the multiset of contents. */
  lemma SwappedContents(b: Board, p1: Posn, p2: Posn)
    requires Rectangular(b) && InBounds(b, p1) && InBounds(b, p2)
    ensures Grid.Contents(Swapped(b, p1, p2)) == Grid.Contents(b)
  {
    SwappedIsExchange(b, p1, p2);
    Grid.ExchangeContents(b, p1, p2);
  }

  /** The order of the two positions does not matter. */
  lemma SwappedSym(b: Board, p1: Posn, p2: Posn)
    requires Rectangular(b) && InBounds(b, p1) && InBounds(b, p2)
    ensures Swapped(b, p1, p2) == Swapped(b, p2, p1)
  {
    var r1, r2 := Swapped(b, p1, p2), Swapped(b, p2, p1);
    SwappedCells(b, p1, p2);
    SwappedCells(b, p2, p1);
    forall row | 0 <= row < |b|
      ensures r1[row] == r2[row]
    {
      forall col | 0 <= col < Width(b)
        ensures r1[row][col] == r2[row][col]
      {
      }
    }
  }

  /** Swapping the same two positions twice gives the board back. */
  lemma SwapTwice(b: Board, p1: Posn, p2: Posn)
    requires Rectangular(b) && InBounds(b, p1) && InBounds(b, p2)
    ensures Swapped(Swapped(b, p1, p2), p1, p2) == b
  {
    var r := Swapped(Swapped(b, p1, p2), p1, p2);
    SwappedCells(b, p1, p2);
    SwappedCells(Swapped(b, p1, p2), p1, p2);
    forall row | 0 <= row < |b|
      ensures r[row] == b[row]
    {
      forall col | 0 <= col < Width(b)
        ensures r[row][col] == b[row][col]
      {
      }
    }
  }

  /** Swapping a position with itself changes nothing. */
  lemma SwapSame(b: Board, p: Posn)
    requires Rectangular(b) && InBounds(b, p)
    ensures Swapped(b, p, p) == b
  {
    var r := Swapped(b, p, p);
    forall row | 0 <= row < |b|
      ensures r[row] == b[row]
    {
      forall col | 0 <= col < Width(b)
        ensures r[row][col] == b[row][col]
      {
      }
    }
  }

  /** Moving a content from p onto a blank q and then on to a blank s is moving it from p
      straight to s. */
  lemma SwapChain(b: Board, p: Posn, q: Posn, s: Posn)
    requires Rectangular(b) && InBounds(b, p) && InBounds(b, q) && InBounds(b, s)
    requires p != q && p != s
    requires b[q.row][q.col].content == Blank && b[s.row][s.col].content == Blank
    ensures Swapped(Swapped(b, p, q), q, s) == Swapped(b, p, s)
  {
    var m := Swapped(b, p, q);
    SwappedCells(b, p, q);
    if q == s {
      SwapSame(m, q);
      SwappedSym(b, p, q);
    } else {
      var r1, r2 := Swapped(m, q, s), Swapped(b, p, s);
      SwappedCells(m, q, s);
      SwappedCells(b, p, s);
      forall row | 0 <= row < |b|
        ensures r1[row] == r2[row]
      {
        forall col | 0 <= col < Width(b)
          ensures r1[row][col] == r2[row][col]
        {
        }
      }
    }
  }

  // ------------------------------------------------------------ settling

  function SettledCell(cell: Cell8): Cell8 {
    if CellFall(cell) then Cell(Normal, Blank) else cell
  }

  /** The board of Level.updateLevel: every hole holding something becomes normal blank
      floor, every other cell passes through. */
  function Settled(b: Board): (r: Board)
    ensures |r| == |b| && forall row :: 0 <= row < |b| ==> |r[row]| == |b[row]|
    ensures forall row, col :: 0 <= row < |b| && 0 <= col < |b[row]| ==>
      r[row][col] == (if b[row][col].ground == Hole && b[row][col].content != Blank then Cell(Normal, Blank) else b[row][col])
  {
    seq(|b|, row requires 0 <= row < |b| => seq(|b[row]|, col requires 0 <= col < |b[row]| => SettledCell(b[row][col])))
  }

  /** After settling no hole holds anything, settling again changes nothing, and a
      rectangular board stays rectangular. */
  lemma SettledIsSettled(b: Board)
    ensures forall row, col :: 0 <= row < |b| && 0 <= col < |b[row]| && Settled(b)[row][col].ground == Hole ==>
      Settled(b)[row][col].content == Blank
    ensures Settled(Settled(b)) == Settled(b)
    ensures Rectangular(b) ==> Rectangular(Settled(b))
  {
    var s := Settled(b);
    var ss := Settled(s);
    forall row | 0 <= row < |b|
      ensures ss[row] == s[row]
    {
      forall col | 0 <= col < |b[row]|
        ensures ss[row][col] == s[row][col]
      {
      }
    }
  }

  // ------------------------------------------------------------ win and loss

  /** The win condition as the game means it: every target holds the trophy of its colour. */
  predicate AllTargetsMatched(b: Board) {
    forall row, col :: 0 <= row < |b| && 0 <= col < |b[row]| && b[row][col].ground.Target? ==>
      b[row][col].content == Trophy(b[row][col].ground.color)
  }


  // ------------------------------------------------------------ direction of travel

  /** q lies on the half-line that starts at p and runs in direction d. */
  predicate OnRay(q: Posn, p: Posn, d: Direction) {
    match d
    case Up => q.col == p.col && q.row <= p.row
    case Down => q.col == p.col && q.row >= p.row
    case Left => q.row == p.row && q.col <= p.col
    case Right => q.row == p.row && q.col >= p.col
  }

  /** The ray from p without p itself is the ray from the next cell. */
  lemma RayStep(q: Posn, p: Posn, d: Direction)
    ensures OnRay(q, p, d) && q != p <==> OnRay(q, MovePosn(p, d), d)
    ensures OnRay(MovePosn(p, d), p, d) && MovePosn(p, d) != p
  {
  }

  /** How many cells remain on the board from p in direction d (0 off the board). */
  function Remaining(b: Board, p: Posn, d: Direction): nat
    requires |b| > 0
  {
    if !InBounds(b, p) then 0
    else match d
      case Up => p.row + 1
      case Down => |b| - p.row
      case Left => p.col + 1
      case Right => Width(b) - p.col
  }

  /** b2 has the shape and the grounds of b, and differs from it only on the half-line
      from p in direction d. */
  predicate Frame(b: Board, b2: Board, p: Posn, d: Direction) {
    && Rectangular(b) && Rectangular(b2) && |b2| == |b| && Width(b2) == Width(b)
    && (forall row, col :: 0 <= row < |b| && 0 <= col < Width(b) ==> b2[row][col].ground == b[row][col].ground)
    && (forall row, col :: 0 <= row < |b| && 0 <= col < Width(b) && !OnRay(Posn(col, row), p, d) ==>
          b2[row][col] == b[row][col])
  }

  /** A swap of two positions on the half-line from p changes nothing off it. */
  lemma SwapFrame(b: Board, p1: Posn, p2: Posn, p: Posn, d: Direction)
    requires Rectangular(b) && InBounds(b, p1) && InBounds(b, p2)
    requires OnRay(p1, p, d) && OnRay(p2, p, d)
    ensures Frame(b, Swapped(b, p1, p2), p, d)
  {
    SwappedCells(b, p1, p2);
  }

  lemma FrameTrans(b1: Board, b2: Board, b3: Board, p: Posn, q: Posn, d: Direction)
    requires Frame(b1, b2, p, d) && Frame(b2, b3, q, d) && OnRay(q, p, d)
    ensures Frame(b1, b3, p, d)
  {
  }
}
