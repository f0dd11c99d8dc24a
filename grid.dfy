// Boards of either version as rows of cells: addressing a cell, replacing the content
// of one cell, and the multiset of contents a board holds.
module Grid {
  import opened Basics

  /** p addresses a cell of b: a row of b and a column of that row. */
  predicate InGrid<G>(b: seq<seq<Cell<G>>>, p: Posn) {
    0 <= p.row < |b| && 0 <= p.col < |b[p.row]|
  }

  /** Every row of b2 is as long as the same row of b. */
  predicate SameShape<G>(b: seq<seq<Cell<G>>>, b2: seq<seq<Cell<G>>>) {
    |b2| == |b| && forall row :: 0 <= row < |b| ==> |b2[row]| == |b[row]|
  }

  /** b with the content of the cell at p replaced by c; the ground stays. */
  function SetContent<G>(b: seq<seq<Cell<G>>>, p: Posn, c: Content): (r: seq<seq<Cell<G>>>)
    requires InGrid(b, p)
    ensures SameShape(b, r)
    ensures r[p.row][p.col] == Cell(b[p.row][p.col].ground, c)
    ensures forall row, col :: 0 <= row < |b| && 0 <= col < |b[row]| && Posn(col, row) != p ==>
      r[row][col] == b[row][col]
  {
    b[p.row := b[p.row][p.col := Cell(b[p.row][p.col].ground, c)]]
  }

  /** Writing back the content a cell already holds changes nothing. */
  lemma SetContentSame<G>(b: seq<seq<Cell<G>>>, p: Posn)
    requires InGrid(b, p)
    ensures SetContent(b, p, b[p.row][p.col].content) == b
  {
    assert b[p.row][p.col := Cell(b[p.row][p.col].ground, b[p.row][p.col].content)] == b[p.row];
  }

  /** The loss condition as the game means it: no cell holds the player. */
  predicate PlayerAbsent<G>(b: seq<seq<Cell<G>>>) {
    forall row, col :: 0 <= row < |b| && 0 <= col < |b[row]| ==> b[row][col].content != Player
  }

  /** The contents of one row, as a multiset. */
  function RowContents<G>(row: seq<Cell<G>>): multiset<Content> {
    multiset(seq(|row|, i requires 0 <= i < |row| => row[i].content))
  }

  /** The contents of the whole board, as a multiset. */
  function Contents<G>(b: seq<seq<Cell<G>>>): multiset<Content> {
    if |b| == 0 then multiset{} else Contents(b[..|b| - 1]) + RowContents(b[|b| - 1])
  }

  lemma RowContentsUpdate<G>(row: seq<Cell<G>>, i: int, x: Cell<G>)
    requires 0 <= i < |row|
    ensures RowContents(row[i := x]) == RowContents(row) - multiset{row[i].content} + multiset{x.content}
  {
    var s := seq(|row|, k requires 0 <= k < |row| => row[k].content);
    assert seq(|row|, k requires 0 <= k < |row| => row[i := x][k].content) == s[i := x.content];
  }

  lemma RowContentsSnoc<G>(row: seq<Cell<G>>, x: Cell<G>)
    ensures RowContents(row + [x]) == RowContents(row) + multiset{x.content}
  {
    var s := seq(|row|, k requires 0 <= k < |row| => row[k].content);
    assert seq(|row + [x]|, k requires 0 <= k < |row + [x]| => (row + [x])[k].content) == s + [x.content];
  }

  lemma {:induction false} ContentsHas<G>(b: seq<seq<Cell<G>>>, r: int)
    requires 0 <= r < |b|
    ensures RowContents(b[r]) <= Contents(b)
    decreases |b|
  {
    if r < |b| - 1 {
      assert b[..|b| - 1][r] == b[r];
      ContentsHas(b[..|b| - 1], r);
    }
  }

  /** Multiset arithmetic the row replacement needs. */
  lemma MultisetShift(x: multiset<Content>, a: multiset<Content>, c: multiset<Content>, l: multiset<Content>)
    requires a <= x
    ensures x - a + c + l == x + l - a + c
    ensures x + l - l + c == x + c
  {
  }

  lemma {:induction false} ContentsUpdate<G>(b: seq<seq<Cell<G>>>, r: int, newRow: seq<Cell<G>>)
    requires 0 <= r < |b|
    ensures Contents(b[r := newRow]) == Contents(b) - RowContents(b[r]) + RowContents(newRow)
    decreases |b|
  {
    var b2 := b[r := newRow];
    var init, last := b[..|b| - 1], b[|b| - 1];
    assert Contents(b) == Contents(init) + RowContents(last);
    if r == |b| - 1 {
      assert b2[..|b2| - 1] == init;
      assert Contents(b2) == Contents(init) + RowContents(newRow);
      MultisetShift(Contents(init), multiset{}, RowContents(newRow), RowContents(last));
    } else {
      assert b2[..|b2| - 1] == init[r := newRow];
      assert b2[|b2| - 1] == last;
      assert Contents(b2) == Contents(init[r := newRow]) + RowContents(last);
      ContentsUpdate(init, r, newRow);
      assert init[r] == b[r];
      ContentsHas(init, r);
      MultisetShift(Contents(init), RowContents(b[r]), RowContents(newRow), RowContents(last));
    }
  }

  lemma RowContentsHas<G>(row: seq<Cell<G>>, i: int)
    requires 0 <= i < |row|
    ensures row[i].content in RowContents(row)
  {
    var s := seq(|row|, k requires 0 <= k < |row| => row[k].content);
    assert s[i] == row[i].content;
  }

  lemma ReplaceInPart(whole: multiset<Content>, part: multiset<Content>, a: Content, c: Content)
    requires part <= whole && a in part
    ensures whole - part + (part - multiset{a} + multiset{c}) == whole - multiset{a} + multiset{c}
  {
  }

  /** Replacing one content takes that content out of the board's multiset and puts the
      new one in. */
  lemma SetContentContents<G>(b: seq<seq<Cell<G>>>, p: Posn, c: Content)
    requires InGrid(b, p)
    ensures b[p.row][p.col].content in Contents(b)
    ensures Contents(SetContent(b, p, c)) == Contents(b) - multiset{b[p.row][p.col].content} + multiset{c}
  {
    var row := b[p.row];
    var x := Cell(row[p.col].ground, c);
    assert SetContent(b, p, c) == b[p.row := row[p.col := x]];
    RowContentsUpdate(row, p.col, x);
    ContentsUpdate(b, p.row, row[p.col := x]);
    ContentsHas(b, p.row);
    RowContentsHas(row, p.col);
    ReplaceInPart(Contents(b), RowContents(row), row[p.col].content, c);
  }

  /** Exchanging the contents of two cells keeps the multiset of contents. */
  lemma ExchangeContents<G>(b: seq<seq<Cell<G>>>, p1: Posn, p2: Posn)
    requires InGrid(b, p1) && InGrid(b, p2)
    ensures var c1, c2 := b[p1.row][p1.col].content, b[p2.row][p2.col].content;
      Contents(SetContent(SetContent(b, p1, c2), p2, c1)) == Contents(b)
  {
    var c1, c2 := b[p1.row][p1.col].content, b[p2.row][p2.col].content;
    var b1: seq<seq<Cell<G>>> := SetContent(b, p1, c2);
    SetContentContents(b, p1, c2);
    SetContentContents(b1, p2, c1);
    assert b1[p2.row][p2.col].content == c2;
  }
}
