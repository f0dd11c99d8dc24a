// Knitted fabric (hw8/src/Knitting.java): rows of knit and purl stitches, their text
// rendering, and the flip to the other side of the fabric.
module Knitting {

  /** A stitch: a knit shows "V" on the front, a purl shows "-". */
  datatype Stitch = Knit | Purl

  type Row = seq<Stitch>

  /** render: a one-character picture that is never a line break. */
  function Render(s: Stitch): (r: string)
    ensures |r| == 1 && r[0] != '\n'
  {
    match s
    case Knit => "V"
    case Purl => "-"
  }

  /** flip: the other side of a stitch is the other kind of stitch. */
  function FlipStitch(s: Stitch): (r: Stitch)
    ensures r != s
    ensures Render(r) != Render(s)
  {
    match s
    case Knit => Purl
    case Purl => Knit
  }

  /** Flipping a stitch twice gives it back. */
  lemma FlipStitchTwice(s: Stitch)
    ensures FlipStitch(FlipStitch(s)) == s
  {
  }

  /** Two stitches look the same exactly when they are the same stitch. */
  lemma RenderInjective(s: Stitch, t: Stitch)
    ensures Render(s) == Render(t) <==> s == t
  {
  }

  // ------------------------------------------------------------ rendering

  /** The stitches of one row rendered left to right: one character per stitch. */
  function RenderRow(row: Row): (r: string)
    ensures |r| == |row|
    ensures forall i :: 0 <= i < |row| ==> r[i] == Render(row[i])[0]
  {
    if |row| == 0 then "" else RenderRow(row[..|row| - 1]) + Render(row[|row| - 1])
  }

  /** renderFabric: each row rendered and followed by a line break, rows in order. */
  function RenderRows(rows: seq<Row>): string {
    if |rows| == 0 then "" else RenderRows(rows[..|rows| - 1]) + RenderRow(rows[|rows| - 1]) + "\n"
  }

  /** The number of characters a rendering holds: each row's stitches and its line break. */
  function Size(rows: seq<Row>): nat {
    if |rows| == 0 then 0 else Size(rows[..|rows| - 1]) + |rows[|rows| - 1]| + 1
  }

  /** The rendered length is the sum over the rows of their length plus one. */
  lemma {:induction false} RenderLength(rows: seq<Row>)
    ensures |RenderRows(rows)| == Size(rows)
  {
    if |rows| > 0 {
      RenderLength(rows[..|rows| - 1]);
    }
  }

  /** The rendering read from the first row on: the first row, its line break, the rest. */
  lemma {:induction false} RenderRowsCons(row: Row, rest: seq<Row>)
    ensures RenderRows([row] + rest) == RenderRow(row) + "\n" + RenderRows(rest)
  {
    var rows := [row] + rest;
    if |rest| == 0 {
      assert rows[..0] == [];
    } else {
      var init, last := rest[..|rest| - 1], rest[|rest| - 1];
      assert rows[..|rows| - 1] == [row] + init;
      assert rows[|rows| - 1] == last;
      RenderRowsCons(row, init);
      calc {
        RenderRows(rows);
        RenderRows([row] + init) + RenderRow(last) + "\n";
        RenderRow(row) + "\n" + RenderRows(init) + RenderRow(last) + "\n";
        RenderRow(row) + "\n" + (RenderRows(init) + RenderRow(last) + "\n");
      }
    }
  }

  /** A row rendering has no line break in it. */
  lemma NoBreakInRow(row: Row)
    ensures forall i :: 0 <= i < |RenderRow(row)| ==> RenderRow(row)[i] != '\n'
  {
    forall i | 0 <= i < |RenderRow(row)|
      ensures RenderRow(row)[i] != '\n'
    {
      assert RenderRow(row)[i] == Render(row[i])[0];
    }
  }

  /** In a line followed by a line break, that break is the first one. */
  lemma FirstBreak(line: string, rest: string)
    requires forall i :: 0 <= i < |line| ==> line[i] != '\n'
    ensures (line + "\n" + rest)[|line|] == '\n'
    ensures forall i :: 0 <= i < |line| ==> (line + "\n" + rest)[i] != '\n'
  {
  }

  /** A row is recovered from its rendering. */
  lemma RenderRowInjective(a: Row, b: Row)
    requires RenderRow(a) == RenderRow(b)
    ensures a == b
  {
    assert |a| == |b|;
    forall i | 0 <= i < |a|
      ensures a[i] == b[i]
    {
      assert RenderRow(a)[i] == RenderRow(b)[i];
      RenderInjective(a[i], b[i]);
    }
  }

  /** A fabric is recovered from its rendering: two fabrics render alike only when they
      have the same rows of the same stitches. */
  lemma {:induction false} RenderRowsInjective(a: seq<Row>, b: seq<Row>)
    ensures RenderRows(a) == RenderRows(b) <==> a == b
  {
    if RenderRows(a) == RenderRows(b) {
      if |a| == 0 || |b| == 0 {
        RenderLength(a);
        RenderLength(b);
      } else {
        var x, y := RenderRow(a[0]), RenderRow(b[0]);
        var s := RenderRows(a);
        assert a == [a[0]] + a[1..];
        assert b == [b[0]] + b[1..];
        RenderRowsCons(a[0], a[1..]);
        RenderRowsCons(b[0], b[1..]);
        NoBreakInRow(a[0]);
        NoBreakInRow(b[0]);
        FirstBreak(x, RenderRows(a[1..]));
        FirstBreak(y, RenderRows(b[1..]));
        assert |x| == |y|;
        assert x == s[..|x|] == y;
        RenderRowInjective(a[0], b[0]);
        assert RenderRows(a[1..]) == s[|x| + 1..] == RenderRows(b[1..]);
        RenderRowsInjective(a[1..], b[1..]);
      }
    }
  }

  // ------------------------------------------------------------ flipping

  /** One row seen from the other side: right to left, every stitch flipped. */
  function FlipRow(row: Row): (r: Row)
    ensures |r| == |row|
    ensures forall i :: 0 <= i < |row| ==> r[i] == FlipStitch(row[|row| - 1 - i])
  {
    if |row| == 0 then [] else [FlipStitch(row[|row| - 1])] + FlipRow(row[..|row| - 1])
  }

  /** The whole fabric seen from the other side: every row flipped, rows in their order. */
  function FlipRows(rows: seq<Row>): (r: seq<Row>)
    ensures |r| == |rows|
    ensures forall i :: 0 <= i < |rows| ==> r[i] == FlipRow(rows[i])
  {
    if |rows| == 0 then [] else FlipRows(rows[..|rows| - 1]) + [FlipRow(rows[|rows| - 1])]
  }

  /** Flipping a row twice gives it back. */
  lemma FlipRowTwice(row: Row)
    ensures FlipRow(FlipRow(row)) == row
  {
    var r := FlipRow(FlipRow(row));
    forall i | 0 <= i < |row|
      ensures r[i] == row[i]
    {
      FlipStitchTwice(row[i]);
    }
  }

  /** Flipping a fabric twice gives back the same rows of the same stitches, so in
      particular the same rendering. */
  lemma FlipRowsTwice(rows: seq<Row>)
    ensures FlipRows(FlipRows(rows)) == rows
    ensures RenderRows(FlipRows(FlipRows(rows))) == RenderRows(rows)
  {
    var r := FlipRows(FlipRows(rows));
    forall i | 0 <= i < |rows|
      ensures r[i] == rows[i]
    {
      FlipRowTwice(rows[i]);
    }
  }

  /** The relation sameFabric decides, in terms of the stitches: the other fabric is this
      one, or this one seen from the back. */
  predicate LooksSame(a: seq<Row>, b: seq<Row>) {
    a == b || FlipRows(a) == b
  }

  /** sameFabric compares renderings; two renderings agree exactly when the stitches do. */
  lemma LooksSameByRendering(a: seq<Row>, b: seq<Row>)
    ensures LooksSame(a, b) <==> RenderRows(a) == RenderRows(b) || RenderRows(FlipRows(a)) == RenderRows(b)
  {
    RenderRowsInjective(a, b);
    RenderRowsInjective(FlipRows(a), b);
  }

  /** Looking the same is symmetric: a fabric is the back of another exactly when the
      other is its back. It is reflexive by its definition. */
  lemma LooksSameSymmetric(a: seq<Row>, b: seq<Row>)
    ensures LooksSame(a, b) <==> LooksSame(b, a)
  {
    if FlipRows(a) == b {
      FlipRowsTwice(a);
    }
    if FlipRows(b) == a {
      FlipRowsTwice(b);
    }
  }

  // ------------------------------------------------------------ the mutable fabric

  /** KnittedFabric: a growing list of rows. */
  class KnittedFabric {
    var rows: seq<Row>

    /** The fabric made of the given rows. */
    constructor (rows: seq<Row>)
      ensures this.rows == rows
    {
      this.rows := rows;
    }

    /** The empty fabric. */
    constructor Empty()
      ensures rows == []
    {
      rows := [];
    }

    /** addRow: copies the stitches the iterator yields, in order, into a new last row and
        returns this same fabric; earlier rows are untouched. */
    method AddRow(row: seq<Stitch>) returns (self: KnittedFabric)
      modifies this
      ensures self == this
      ensures rows == old(rows) + [row]
    {
      var newRow: Row := [];
      var i := 0;
      while i < |row|
        invariant 0 <= i <= |row|
        invariant newRow == row[..i]
      {
        newRow := newRow + [row[i]];
        i := i + 1;
      }
      assert newRow == row;
      rows := rows + [newRow];
      self := this;
    }

    /** renderFabric: the text picture of the fabric, one line per row. */
    method RenderFabric() returns (result: string)
      ensures result == RenderRows(rows)
      ensures |result| == Size(rows)
    {
      result := "";
      var i := 0;
      while i < |rows|
        invariant 0 <= i <= |rows|
        invariant result == RenderRows(rows[..i])
      {
        var row := rows[i];
        assert rows[..i + 1][..i] == rows[..i];
        var line := result;
        var j := 0;
        while j < |row|
          invariant 0 <= j <= |row|
          invariant result == line + RenderRow(row[..j])
        {
          assert row[..j + 1][..j] == row[..j];
          result := result + Render(row[j]);
          j := j + 1;
        }
        assert row[..j] == row;
        result := result + "\n";
        i := i + 1;
      }
      assert rows[..i] == rows;
      RenderLength(rows);
    }

    /** flip: a new fabric holding this one seen from the back; this one is unchanged. */
    method Flip() returns (flipped: KnittedFabric)
      ensures fresh(flipped)
      ensures flipped.rows == FlipRows(rows)
    {
      var flippedRows: seq<Row> := [];
      var i := 0;
      while i < |rows|
        invariant 0 <= i <= |rows|
        invariant flippedRows == FlipRows(rows[..i])
      {
        var row := rows[i];
        var flippedRow: Row := [];
        var j := 0;
        while j < |row|
          invariant 0 <= j <= |row|
          invariant flippedRow == FlipRow(row[..j])
        {
          assert row[..j + 1][..j] == row[..j];
          flippedRow := [FlipStitch(row[j])] + flippedRow;
          j := j + 1;
        }
        assert row[..j] == row;
        assert rows[..i + 1][..i] == rows[..i];
        flippedRows := flippedRows + [flippedRow];
        i := i + 1;
      }
      assert rows[..i] == rows;
      flipped := new KnittedFabric(flippedRows);
    }

    /** sameFabric: the two fabrics render alike, or this one's back renders like the other;
        that is, the other has the same stitches as this one, or as this one's back. */
    method SameFabric(other: KnittedFabric) returns (same: bool)
      ensures same <==> LooksSame(rows, other.rows)
    {
      var mine := RenderFabric();
      var theirs := other.RenderFabric();
      LooksSameByRendering(rows, other.rows);
      if mine == theirs {
        return true;
      }
      var back := Flip();
      var backText := back.RenderFabric();
      same := backText == theirs;
    }
  }
}
