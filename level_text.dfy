// The level-description parser of Utils (identical in both Sokoban versions apart
// from the ground alphabet, which is passed in as a decoder).
module LevelText {
  import opened Basics

  /** Characters that denote the player in a content text. */
  predicate IsPlayerChar(ch: char) {
    ch == '^' || ch == 'v' || ch == '<' || ch == '>'
  }

  // ---------------------------------------------------------------- split

  /** String.indexOf(sep, from) for a one-character separator: the first index at or
      after from that holds sep, or -1. */
  function IndexOf(s: string, sep: char, from: nat): (i: int)
    decreases |s| - from
    ensures -1 <= i < |s|
    ensures i == -1 <==> forall k :: from <= k < |s| ==> s[k] != sep
    ensures i >= 0 ==> from <= i && s[i] == sep && forall k :: from <= k < i ==> s[k] != sep
  {
    if from >= |s| then -1
    else if s[from] == sep then from
    else IndexOf(s, sep, from + 1)
  }

  /** The pieces of s[from..] between occurrences of sep, as Utils.split collects them. */
  function SplitFrom(s: string, sep: char, from: nat): (parts: seq<string>)
    requires from <= |s|
    decreases |s| - from
    ensures |parts| >= 1
  {
    var i := IndexOf(s, sep, from);
    if i < 0 then [s[from..]] else [s[from..i]] + SplitFrom(s, sep, i + 1)
  }

  function Split(s: string, sep: char): seq<string> {
    SplitFrom(s, sep, 0)
  }

  /** Utils.split with a one-character separator: the loop of the source, proved to
      compute Split. */
  method SplitMethod(input: string, sep: char) returns (result: seq<string>)
    ensures result == Split(input, sep)
  {
    result := [];
    var start := 0;
    while true
      invariant 0 <= start <= |input|
      invariant result + SplitFrom(input, sep, start) == Split(input, sep)
      decreases |input| - start
    {
      var strIdx := IndexOf(input, sep, start);
      if strIdx == -1 {
        result := result + [input[start..]];
        break;
      }
      result := result + [input[start..strIdx]];
      start := strIdx + 1;
    }
  }

  /** Re-inserting the separator between the pieces. */
  function Join(parts: seq<string>, sep: char): string
    requires |parts| >= 1
  {
    if |parts| == 1 then parts[0] else parts[0] + [sep] + Join(parts[1..], sep)
  }

  /** Sum of the lengths of the pieces. */
  function TotalLength(parts: seq<string>): nat {
    if parts == [] then 0 else |parts[0]| + TotalLength(parts[1..])
  }

  lemma {:induction false} SplitFromJoin(s: string, sep: char, from: nat)
    requires from <= |s|
    decreases |s| - from
    ensures Join(SplitFrom(s, sep, from), sep) == s[from..]
    ensures forall k :: 0 <= k < |SplitFrom(s, sep, from)| ==> sep !in SplitFrom(s, sep, from)[k]
    ensures |s| - from == TotalLength(SplitFrom(s, sep, from)) + |SplitFrom(s, sep, from)| - 1
  {
    var i := IndexOf(s, sep, from);
    if i >= 0 {
      SplitFromJoin(s, sep, i + 1);
      var rest := SplitFrom(s, sep, i + 1);
      assert SplitFrom(s, sep, from) == [s[from..i]] + rest;
      assert ([s[from..i]] + rest)[1..] == rest;
      assert s[from..] == s[from..i] + [sep] + s[i + 1..];
      forall k | 0 <= k < |SplitFrom(s, sep, from)|
        ensures sep !in SplitFrom(s, sep, from)[k]
      {
        if k > 0 {
          assert SplitFrom(s, sep, from)[k] == rest[k - 1];
        }
      }
    }
  }

  /** Splitting is undone by joining, no piece holds the separator, and the text is
      as long as its pieces plus one separator between each two of them. */
  lemma SplitJoin(s: string, sep: char)
    ensures Join(Split(s, sep), sep) == s
    ensures forall k :: 0 <= k < |Split(s, sep)| ==> sep !in Split(s, sep)[k]
    ensures |s| == TotalLength(Split(s, sep)) + |Split(s, sep)| - 1
  {
    SplitFromJoin(s, sep, 0);
  }

  // ------------------------------------------------------ finding the player

  /** Index of the first player character at or after from, or -1. */
  function PlayerIdxFrom(row: string, from: nat): (i: int)
    decreases |row| - from
    ensures -1 <= i < |row|
    ensures i == -1 <==> forall k :: from <= k < |row| ==> !IsPlayerChar(row[k])
    ensures i >= 0 ==> from <= i && IsPlayerChar(row[i]) && forall k :: from <= k < i ==> !IsPlayerChar(row[k])
  {
    if from >= |row| then -1
    else if IsPlayerChar(row[from]) then from
    else PlayerIdxFrom(row, from + 1)
  }

  function PlayerIdx(row: string): int {
    PlayerIdxFrom(row, 0)
  }

  /** Utils.findPlayerIdxInRow: the index of the first player character in the row, or -1. */
  method FindPlayerIdxInRow(contentStr: string) returns (idx: int)
    ensures idx == -1 <==> forall k :: 0 <= k < |contentStr| ==> !IsPlayerChar(contentStr[k])
    ensures idx >= 0 ==> idx < |contentStr| && IsPlayerChar(contentStr[idx])
    ensures idx >= 0 ==> forall k :: 0 <= k < idx ==> !IsPlayerChar(contentStr[k])
    ensures idx == PlayerIdx(contentStr)
  {
    for strIdx := 0 to |contentStr|
      invariant forall k :: 0 <= k < strIdx ==> !IsPlayerChar(contentStr[k])
    {
      if IsPlayerChar(contentStr[strIdx]) {
        return strIdx;
      }
    }
    return -1;
  }

  /** The position of the first player character in rows[from..], row by row. */
  function PlayerPosnFrom(rows: seq<string>, from: nat): (r: Result<Posn>)
    decreases |rows| - from
    ensures r.Err? ==> r.error == NoPlayer
    ensures r.Err? <==> forall i, k :: from <= i < |rows| && 0 <= k < |rows[i]| ==> !IsPlayerChar(rows[i][k])
    ensures r.Ok? ==> from <= r.value.row < |rows| && 0 <= r.value.col < |rows[r.value.row]|
    ensures r.Ok? ==> r.value.col == PlayerIdx(rows[r.value.row])
    ensures r.Ok? ==> forall i :: from <= i < r.value.row ==> PlayerIdx(rows[i]) == -1
  {
    if from >= |rows| then Err(NoPlayer)
    else
      var k := PlayerIdx(rows[from]);
      if k == -1 then PlayerPosnFrom(rows, from + 1) else Ok(Posn(k, from))
  }

  function PlayerPosn(contentStr: string): Result<Posn> {
    PlayerPosnFrom(Split(contentStr, '\n'), 0)
  }

  /** Utils.findPlayer: the row-major first player character of the content text, or
      the "no player" exception. */
  method FindPlayer(contentStr: string) returns (r: Result<Posn>)
    ensures r == PlayerPosn(contentStr)
  {
    var rows := SplitMethod(contentStr, '\n');
    for listIdx := 0 to |rows|
      invariant PlayerPosnFrom(rows, listIdx) == PlayerPosn(contentStr)
    {
      var playerIndex := FindPlayerIdxInRow(rows[listIdx]);
      if playerIndex == -1 {
        continue;
      }
      return Ok(Posn(playerIndex, listIdx));
    }
    return Err(NoPlayer);
  }

  // ------------------------------------------------------ building the grid

  /** Utils.makeContent. */
  function MakeContent(ch: char): (r: Result<Content>)
    ensures r.Ok? <==> ch in "ygbrWB><^v_"
    ensures r.Err? ==> r.error == InvalidContent(ch)
    ensures r.Ok? ==> (r.value.Player? <==> IsPlayerChar(ch))
  {
    match ch
    case 'y' => Ok(Trophy(Yellow))
    case 'g' => Ok(Trophy(Green))
    case 'b' => Ok(Trophy(Blue))
    case 'r' => Ok(Trophy(Red))
    case 'W' => Ok(Wall)
    case 'B' => Ok(Box)
    case '>' => Ok(Player)
    case '<' => Ok(Player)
    case '^' => Ok(Player)
    case 'v' => Ok(Player)
    case '_' => Ok(Blank)
    case _ => Err(InvalidContent(ch))
  }

  /** The cells Utils.makeRow builds from the first n characters of the ground text:
      each index decodes its ground character, then reads the content character (which
      fails when the content row is shorter), then decodes it; the first failure wins. */
  function MakeRowUpTo<G>(g: string, c: string, ground: char -> Result<G>, n: nat): (r: Result<seq<Cell<G>>>)
    requires n <= |g|
    ensures r.Ok? ==> |r.value| == n && n <= |c|
    ensures r.Ok? ==> forall k :: 0 <= k < n ==>
      ground(g[k]).Ok? && MakeContent(c[k]).Ok? &&
      r.value[k] == Cell(ground(g[k]).value, MakeContent(c[k]).value)
    ensures r.Err? <==> exists k :: 0 <= k < n && (ground(g[k]).Err? || k >= |c| || MakeContent(c[k]).Err?)
  {
    if n == 0 then Ok([])
    else
      var prefix :- MakeRowUpTo(g, c, ground, n - 1);
      var gr :- ground(g[n - 1]);
      if n - 1 >= |c| then Err(IndexOutOfBounds)
      else
        var ct :- MakeContent(c[n - 1]);
        Ok(prefix + [Cell(gr, ct)])
  }

  function MakeRow<G>(g: string, c: string, ground: char -> Result<G>): Result<seq<Cell<G>>> {
    MakeRowUpTo(g, c, ground, |g|)
  }

  /** Once a prefix of the row fails, every longer prefix fails the same way. */
  lemma {:induction false} MakeRowErrSticks<G>(g: string, c: string, ground: char -> Result<G>, n: nat, m: nat)
    requires n <= m <= |g|
    requires MakeRowUpTo(g, c, ground, n).Err?
    ensures MakeRowUpTo(g, c, ground, m) == MakeRowUpTo(g, c, ground, n)
    decreases m - n
  {
    if n < m {
      MakeRowErrSticks(g, c, ground, n, m - 1);
    }
  }

  /** Utils.makeRow: one cell per ground character, left to right. */
  method MakeRowMethod<G>(groundStr: string, contentStr: string, ground: char -> Result<G>) returns (r: Result<seq<Cell<G>>>)
    ensures r == MakeRow(groundStr, contentStr, ground)
  {
    var row: seq<Cell<G>> := [];
    var stringLen := |groundStr|;
    for stringIdx := 0 to stringLen
      invariant MakeRowUpTo(groundStr, contentStr, ground, stringIdx) == Ok(row)
    {
      var gr := ground(groundStr[stringIdx]);
      if gr.Err? || stringIdx >= |contentStr| || MakeContent(contentStr[stringIdx]).Err? {
        r := MakeRowUpTo(groundStr, contentStr, ground, stringIdx + 1);
        MakeRowErrSticks(groundStr, contentStr, ground, stringIdx + 1, stringLen);
        return;
      }
      var content := MakeContent(contentStr[stringIdx]);
      row := row + [Cell(gr.value, content.value)];
    }
    r := Ok(row);
  }

  /** The rows Utils.makeGrid builds from the first n ground rows: ground row i is paired
      with content row i, and a missing content row is an index error. */
  function MakeGridUpTo<G>(groundRows: seq<string>, contentRows: seq<string>, ground: char -> Result<G>, n: nat)
    : (r: Result<seq<seq<Cell<G>>>>)
    requires n <= |groundRows|
    ensures r.Ok? ==> |r.value| == n && n <= |contentRows|
    ensures r.Ok? ==> forall i :: 0 <= i < n ==>
      MakeRow(groundRows[i], contentRows[i], ground) == Ok(r.value[i])
  {
    if n == 0 then Ok([])
    else
      var prefix :- MakeGridUpTo(groundRows, contentRows, ground, n - 1);
      if n - 1 >= |contentRows| then Err(IndexOutOfBounds)
      else
        var row :- MakeRow(groundRows[n - 1], contentRows[n - 1], ground);
        Ok(prefix + [row])
  }

  function MakeGrid<G>(g: string, c: string, ground: char -> Result<G>): Result<seq<seq<Cell<G>>>> {
    var groundRows := Split(g, '\n');
    MakeGridUpTo(groundRows, Split(c, '\n'), ground, |groundRows|)
  }

  lemma {:induction false} MakeGridErrSticks<G>(gr: seq<string>, cr: seq<string>, ground: char -> Result<G>, n: nat, m: nat)
    requires n <= m <= |gr|
    requires MakeGridUpTo(gr, cr, ground, n).Err?
    ensures MakeGridUpTo(gr, cr, ground, m) == MakeGridUpTo(gr, cr, ground, n)
    decreases m - n
  {
    if n < m {
      MakeGridErrSticks(gr, cr, ground, n, m - 1);
    }
  }

  /** Utils.makeGrid: one row per line of the ground text. */
  method MakeGridMethod<G>(groundStr: string, contentStr: string, ground: char -> Result<G>)
    returns (r: Result<seq<seq<Cell<G>>>>)
    ensures r == MakeGrid(groundStr, contentStr, ground)
  {
    var grid: seq<seq<Cell<G>>> := [];
    var groundRows := SplitMethod(groundStr, '\n');
    var contentRows := SplitMethod(contentStr, '\n');
    for listIdx := 0 to |groundRows|
      invariant MakeGridUpTo(groundRows, contentRows, ground, listIdx) == Ok(grid)
    {
      if listIdx >= |contentRows| {
        r := Err(IndexOutOfBounds);
        MakeGridErrSticks(groundRows, contentRows, ground, listIdx + 1, |groundRows|);
        return;
      }
      var row := MakeRowMethod(groundRows[listIdx], contentRows[listIdx], ground);
      if row.Err? {
        r := Err(row.error);
        MakeGridErrSticks(groundRows, contentRows, ground, listIdx + 1, |groundRows|);
        return;
      }
      grid := grid + [row.value];
    }
    r := Ok(grid);
  }

  // ------------------------------------------------------ the level constructor

  /** What Level(String groundStr, String contentsStr) computes before wrapping: the grid
      and the cached player position. */
  datatype Parsed<G> = Parsed(grid: seq<seq<Cell<G>>>, player: Posn)

  /** The checks of Level(String, String) in the order the source makes them: equal text
      lengths, then the grid, then the player. */
  function Parse<G>(groundStr: string, contentStr: string, ground: char -> Result<G>): Result<Parsed<G>> {
    if |groundStr| != |contentStr| then Err(LengthMismatch)
    else
      var grid :- MakeGrid(groundStr, contentStr, ground);
      var pos :- PlayerPosn(contentStr);
      Ok(Parsed(grid, pos))
  }

  /** Pieces that are each at least as long as the corresponding piece of a shorter list
      weigh at least as much, and weigh the same only when the lists match piece by piece. */
  lemma {:induction false} DominatedLength(gr: seq<string>, cr: seq<string>)
    requires |gr| <= |cr|
    requires forall i :: 0 <= i < |gr| ==> |gr[i]| <= |cr[i]|
    ensures TotalLength(gr) + |gr| <= TotalLength(cr) + |cr|
    ensures TotalLength(gr) + |gr| == TotalLength(cr) + |cr| ==>
      |gr| == |cr| && forall i :: 0 <= i < |gr| ==> |gr[i]| == |cr[i]|
  {
    if gr == [] {
      if cr != [] {
        assert TotalLength(cr) + |cr| >= 1;
      }
    } else {
      DominatedLength(gr[1..], cr[1..]);
      assert TotalLength(gr) == |gr[0]| + TotalLength(gr[1..]);
      assert TotalLength(cr) == |cr[0]| + TotalLength(cr[1..]);
      if TotalLength(gr) + |gr| == TotalLength(cr) + |cr| {
        forall i | 0 <= i < |gr|
          ensures |gr[i]| == |cr[i]|
        {
          if i > 0 {
            assert gr[1..][i - 1] == gr[i];
            assert cr[1..][i - 1] == cr[i];
          }
        }
      }
    }
  }

  /** A description that parses pairs every ground row with a content row of the same
      length: the equal-lengths check and the per-row reads leave no room for slack. */
  lemma ParsedRowsAligned<G>(groundStr: string, contentStr: string, ground: char -> Result<G>)
    requires Parse(groundStr, contentStr, ground).Ok?
    ensures |Split(groundStr, '\n')| == |Split(contentStr, '\n')|
    ensures forall i :: 0 <= i < |Split(groundStr, '\n')| ==>
      |Split(groundStr, '\n')[i]| == |Split(contentStr, '\n')[i]|
  {
    var gr, cr := Split(groundStr, '\n'), Split(contentStr, '\n');
    var grid := MakeGrid(groundStr, contentStr, ground).value;
    forall i | 0 <= i < |gr|
      ensures |gr[i]| <= |cr[i]|
    {
      assert MakeRow(gr[i], cr[i], ground) == Ok(grid[i]);
    }
    SplitJoin(groundStr, '\n');
    SplitJoin(contentStr, '\n');
    DominatedLength(gr, cr);
  }

  /** The cached player position of a parsed level addresses a cell of the grid, and that
      cell holds the player. */
  lemma ParsedPlayerCell<G>(groundStr: string, contentStr: string, ground: char -> Result<G>)
    requires Parse(groundStr, contentStr, ground).Ok?
    ensures var p := Parse(groundStr, contentStr, ground).value;
      0 <= p.player.row < |p.grid| && 0 <= p.player.col < |p.grid[p.player.row]| &&
      p.grid[p.player.row][p.player.col].content == Player
  {
    var p := Parse(groundStr, contentStr, ground).value;
    var gr, cr := Split(groundStr, '\n'), Split(contentStr, '\n');
    ParsedRowsAligned(groundStr, contentStr, ground);
    var row, col := p.player.row, p.player.col;
    assert MakeRow(gr[row], cr[row], ground) == Ok(p.grid[row]);
    assert IsPlayerChar(cr[row][col]);
  }
}
