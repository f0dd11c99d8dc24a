# Sokoban rule engines and knitted fabric, in Dafny

This project models three pieces of a Java course repository and proves properties of them.

- **The ice version of Sokoban** (`hw8/src/Sokoban.java`). A board is a grid of cells. Each cell
  has a ground (normal floor, a coloured target, a hole, ice) and a content (blank, wall, box,
  coloured trophy, player).
  - A `Level` is immutable. It holds the board, a cached player position, a link to the previous
    level and a step count.
  - Moving the player tries a push before a plain step. Then the pushed content slides over ice,
    and so does the player.
  - After a move the level is settled: every hole holding something swallows it and becomes
    normal floor.
  - Undo returns to the previous level's board and still adds a step.
  - The level is read from two texts, one for grounds and one for contents.
- **The first, mutable version of the same game** (`hw7/src/Sokoban.java`). It has no ice, and
  only walls are fixed.
  - The `Level` object edits its board in place, moves the player, settles holes in place and
    resets itself from its stored texts.
  - The `Sokoban` world recomputes a game-over flag after every key.
- **Knitted fabric** (`hw8/src/Knitting.java`). A fabric is a list of rows of knit and purl
  stitches. It can be grown row by row, rendered as text ("V" and "-", one line per row),
  flipped to its back, and compared with another fabric by rendering.

Module layout:

- `Basics`: positions, directions, colours, contents, the generic cell, and the error and
  result types.
- `Grid`: generic board helpers. These are updating one content, and the multiset of contents.
- `LevelText`: the `Utils` parser shared by both versions, parameterised by the ground decoder.
- `Cells8`, `Board8`, `Level8`, `Moves8`, `World8`: the ice version.
  - `Level8` follows the Java code, including its exceptions, as `Result` values. A level
    read from text is its own previous level, so settling it keeps a link to the unsettled level.
  - `Moves8` gives the corrected move (see "## Findings") and the properties of moving.
  - `World8` is the key handler.
- `Cells7`, `Board7`, `Sokoban7`: the mutable version.
  - `Board7` specifies one move and one settling step as functions on a board value.
  - `Sokoban7` holds the `Level` and `Sokoban` classes. Their methods update fields in place and
    are proved against those functions.
- `Knitting`: the stitches, the rendering and flipping functions, and the `KnittedFabric` class.

An exception the Java code throws is an `Err` result (or an `Option<Error>` out-parameter for a
method that changes state). Key events arrive as strings.

## Model

| member | source | states |
|---|---|---|
| Basics.KeyToDirection | hw8/src/Sokoban.java:1149 | A key names a direction exactly when it is one of "up", "down", "right", "left" |
| LevelText.SplitMethod | hw8/src/Sokoban.java:197-215 | The splitting loop returns the pieces of the input between separators |
| LevelText.SplitJoin | hw8/src/Sokoban.java:197-215 | Joining the pieces with the separator gives back the input; no piece contains the separator; the lengths add up |
| LevelText.FindPlayerIdxInRow | hw8/src/Sokoban.java:163-175 | -1 exactly when the row has no player character; otherwise the index of the first one |
| LevelText.PlayerPosnFrom | hw8/src/Sokoban.java:178-194 | NoPlayer exactly when no row has a player character; otherwise the first row that has one and the first column in it |
| LevelText.FindPlayer | hw8/src/Sokoban.java:178-194 | The row-by-row search returns that first player position, or NoPlayer |
| LevelText.MakeContent | hw8/src/Sokoban.java:132-159 | Accepts exactly the characters "ygbrWB><^v_"; the result is a player exactly for a player character; any other character is an InvalidContent error |
| LevelText.MakeRowUpTo | hw8/src/Sokoban.java:92-107 | A built row has one cell per ground character, each decoded from the characters at its index; it fails exactly when some ground or content character is invalid or the content row is too short |
| LevelText.MakeRowMethod | hw8/src/Sokoban.java:92-107 | The cell-building loop computes that row or its first error |
| LevelText.MakeGridUpTo | hw8/src/Sokoban.java:76-89 | A built grid has one row per ground line, each the row built from the matching lines |
| LevelText.MakeGridMethod | hw8/src/Sokoban.java:76-89 | The row-building loop computes that grid or its first error |
| LevelText.ParsedRowsAligned | hw8/src/Sokoban.java:840-849 | A level that parses has as many ground lines as content lines, pairwise of equal length |
| LevelText.ParsedPlayerCell | hw8/src/Sokoban.java:840-849 | The cached player position of a parsed level addresses a cell holding the player |
| Cells8.CellTable | hw8/src/Sokoban.java:397-519 | Per ground and content, with the overrides at :600-720 and :765-803: what wins (a target needs its own trophy), what falls (a hole takes anything but blank), what slides (ice moves boxes, trophies and the player), which contents are vacant or fixed, and that only a missing player loses |
| Cells8.MakeGround | hw8/src/Sokoban.java:110-129 | Accepts exactly "YGBRHI_"; any other character is an InvalidGround error |
| Board8.FindCell | hw8/src/Sokoban.java:852-866 | The cell at the position when it lies inside the board, an OutOfBounds error otherwise |
| Board8.CanMoveTo | hw8/src/Sokoban.java:522-552 | A content can move to a position exactly when the position is inside the board, the content is not fixed (not a wall or blank), and the position holds a blank |
| Board8.SwappedCells | hw8/src/Sokoban.java:985-1020 | Switching two positions exchanges their contents, keeps every ground and leaves every other cell alone |
| Board8.SwappedContents | hw8/src/Sokoban.java:985-1020 | Switching keeps the multiset of contents on the board |
| Board8.SwappedSym | hw8/src/Sokoban.java:985-1020 | Switching p1 with p2 is the same as switching p2 with p1 |
| Board8.SwapTwice | hw8/src/Sokoban.java:985-1020 | Switching the same two positions twice restores the board |
| Board8.Settled | hw8/src/Sokoban.java:1023-1041 | Settling replaces every hole holding a non-blank content by normal floor holding blank and keeps every other cell and the shape |
| Board8.SettledIsSettled | hw8/src/Sokoban.java:1023-1041 | After settling no hole holds anything, settling twice is settling once, and a rectangular board stays rectangular |
| Level8.NewLevel | hw8/src/Sokoban.java:840-849 | Texts of different lengths raise LengthMismatch; otherwise the level exists exactly when the parser accepts both texts, raising the parser's error when it does not; the board and player position are the parsed ones, and the history starts at the root with step 0 |
| Level8.SwitchLevel | hw8/src/Sokoban.java:985-1020 | switchContents succeeds exactly when both positions are inside the board, and raises OutOfBounds otherwise |
| Level8.SwitchContents | hw8/src/Sokoban.java:985-1020 | The copying loops build exactly that level |
| Level8.SlideContent | hw8/src/Sokoban.java:1055-1065 | The content slide raises exactly when its start lies outside the board; otherwise it keeps the player position, history and steps |
| Level8.SlidePlayer | hw8/src/Sokoban.java:1068-1087 | A player slide that succeeds started inside the board with the next cell inside too; it raises only OutOfBounds; it keeps the history and steps |
| Level8.MovePlayer | hw8/src/Sokoban.java:960-981 | A move as written raises only OutOfBounds; a move that succeeds either returns the very same level or links back to it with one more step |
| Level8.UpdateLevel | hw8/src/Sokoban.java:1023-1041 | The settling loops produce the settled level: same player position and steps, and as previous level the receiver's previous level, which at the root is the unsettled receiver itself |
| Level8.UpdateScore | hw8/src/Sokoban.java:1049-1051 | Same board, player position and previous level, with the given step count |
| Level8.UndoMove | hw8/src/Sokoban.java:1044-1046 | Undo gives the previous level's board and player position, with the current steps plus one |
| Level8.LevelWon | hw8/src/Sokoban.java:932-943 | The level is won exactly when every target holds the trophy of its colour |
| Level8.LevelLost | hw8/src/Sokoban.java:946-957 | The level is lost exactly when no cell holds the player |
| Moves8.SlideContentBounded | hw8/src/Sokoban.java:1055-1065 | The content slide with the board-edge cases closed: it keeps the board's shape, the player position, the history and the steps (where it stops: Moves8.SlideContentStops) |
| Moves8.SlidePlayerBounded | hw8/src/Sokoban.java:1068-1087 | The player slide with the board-edge cases closed: it keeps the board's shape, the history and the steps (where it stops: Moves8.SlidePlayerStops) |
| Moves8.MovePlayerBounded | hw8/src/Sokoban.java:960-981 | The corrected move: the same level when nothing can move, otherwise a level linked back to this one with one more step; sliding adds no step |
| Moves8.SlideContentAgrees | hw8/src/Sokoban.java:1055-1065 | Wherever the content slide as written does not raise, it agrees with the corrected one |
| Moves8.SlidePlayerAgrees | hw8/src/Sokoban.java:1068-1087 | Wherever the player slide as written does not raise, it agrees with the corrected one |
| Moves8.MovePlayerAgrees | hw8/src/Sokoban.java:960-981 | Wherever the move as written does not raise, it agrees with the corrected move |
| Moves8.EdgeStepRaises | hw8/src/Sokoban.java:960-981 | A step onto the last cell of a one-row board raises OutOfBounds as written, while the corrected move makes the step |
| Moves8.EdgeMoveOutRaises | hw8/src/Sokoban.java:960-965 | A player on the last cell of its row moving outwards raises OutOfBounds as written, while the corrected move leaves the level as it is |
| Moves8.SlideContentFrame | hw8/src/Sokoban.java:1055-1065 | A content slide changes only cells on the ray from its start in its direction, and never a ground |
| Moves8.SlidePlayerFrame | hw8/src/Sokoban.java:1068-1087 | A player slide changes only cells on the ray from its start, and never a ground |
| Moves8.SlidePlayerPos | hw8/src/Sokoban.java:1068-1087 | After a player slide the player position is unchanged or lies on the board on the ray of the slide |
| Moves8.SlidePlayerKeepsPlayer | hw8/src/Sokoban.java:1068-1087 | A slide that starts at the cached player position keeps the player at the cached position |
| Moves8.MovePlayerFrame | hw8/src/Sokoban.java:960-981 | A move changes only cells on the ray from the player in the move direction, and never a ground |
| Moves8.MovePlayerPos | hw8/src/Sokoban.java:960-981 | A move leaves the player on the ray in the move direction, and on the board when it started there |
| Moves8.MovePlayerKeepsPlayer | hw8/src/Sokoban.java:960-981 | A move keeps the cached position on the cell holding the player |
| Moves8.MoveBlocked | hw8/src/Sokoban.java:960-981 | When neither a push nor a step is possible the move returns the very same level |
| Moves8.NotOnIce | hw8/src/Sokoban.java:1055-1087 | Neither slide does anything from a cell whose ground is not ice |
| Moves8.MoveStep | hw8/src/Sokoban.java:973-977 | Without ice, a step onto a blank cell exchanges the player and the blank, moves the cached position there, links back to the old level and adds one step |
| Moves8.MovePush | hw8/src/Sokoban.java:967-971 | Without ice, a push moves the pushed content to the cell beyond, the player to the cell ahead and blank to the player's old cell, with one more step |
| Moves8.SlideStop | hw8/src/Sokoban.java:1055-1065 | Where a content comes to rest: a cell on the board on the ray from where it starts |
| Moves8.SlideStopPath | hw8/src/Sokoban.java:1055-1065 | The stop is the first cell where the slide test fails: every cell before it has ground the content slides on, every cell after the start up to the stop is blank, and at the stop the content either has no ice or cannot move onto the next cell |
| Moves8.SlideContentStops | hw8/src/Sokoban.java:1055-1065 | The content slide moves the content from its start straight to that stop, leaving blank behind, and changes no other cell |
| Moves8.SlidePlayerStops | hw8/src/Sokoban.java:1068-1087 | The player slide ends with the player on the ray from its start, at the first cell from which the slide test fails; every cell it slid off has ice and is left blank |
| Moves8.MovePushSlides | hw8/src/Sokoban.java:960-971 | A push that leaves the player off ice moves the pushed content from the cell beyond to its stop, with the player on the cell ahead, linked back with one more step |
| Moves8.IcePushScenario | hw8/src/Sokoban.java:960-971 | A box pushed onto a run of two ice cells slides across it and stops on the floor past it, and the player stays where the box was |
| Moves8.SlideContentKeepsContents | hw8/src/Sokoban.java:1055-1065 | A content slide keeps the multiset of contents |
| Moves8.SlidePlayerKeepsContents | hw8/src/Sokoban.java:1068-1087 | A player slide keeps the multiset of contents |
| Moves8.MovePlayerKeepsContents | hw8/src/Sokoban.java:960-981 | A move neither creates nor destroys any content |
| Moves8.UndoAfterMove | hw8/src/Sokoban.java:1044-1046 | Undoing a move that changed the level restores the earlier board and player position, with two more steps than before the move, and the same history |
| Moves8.UndoAtRoot | hw8/src/Sokoban.java:1044-1051 | Undo at the root keeps the board and player position and still adds a step, each time it is pressed |
| Moves8.ValidLevelKept | hw8/src/Sokoban.java:960-1046 | Moving, settling and undoing keep every level of the history rectangular with the player position on the board |
| World8.KeyLevel | hw8/src/Sokoban.java:1148-1158 | A key that is neither an arrow nor "u" leaves the level alone; an arrow key moves and settles, and "u" undoes |
| World8.KeyThenUndo | hw8/src/Sokoban.java:1148-1158 | An arrow key that changes the level, followed by "u", restores the board and player position with two more steps |
| World8.BlockedKeyThenUndo | hw8/src/Sokoban.java:1148-1158 | An arrow key that moves nothing, followed by "u", gives the board and player position of the level before's previous level, with one more step |
| World8.RootKeyThenUndo | hw8/src/Sokoban.java:1774-1796 | On a level as read, any arrow key followed by "u" gives back that level's board and player position, unsettled holes included, whether or not the key moved anything |
| World8.RootBlockedScenario | hw8/src/Sokoban.java:1036-1046 | A box on a hole beside the board edge is settled away by a blocked arrow key at the root, and "u" brings it back |
| World8.KeyLevelValid | hw8/src/Sokoban.java:1148-1158 | Every key keeps the level history well-formed |
| World8.Sokoban.constructor | hw8/src/Sokoban.java:1122-1124 | The world starts on the given level, not ended |
| World8.Sokoban.OnKeyEvent | hw8/src/Sokoban.java:1148-1158 | The level becomes the one the key produces; the world ends once the level is won or lost and stays ended |
| Cells7.CellTable | hw7/src/Sokoban.java:334-399 | Per ground and content, with the overrides at :436-548: a target needs its own trophy, a hole takes anything but blank, only a wall is fixed, only a missing player loses |
| Cells7.MakeGround | hw7/src/Sokoban.java:126-143 | Accepts exactly "YGBRH_" (no ice); any other character is an InvalidGround error |
| Board7.GetCell | hw7/src/Sokoban.java:613-615 | The cell when its row has it, an IndexOutOfBounds error otherwise |
| Board7.Move | hw7/src/Sokoban.java:619-658 | The only exception a move raises is IndexOutOfBounds (what it does otherwise: the Board7.Move* lemmas below) |
| Board7.MoveStops | hw7/src/Sokoban.java:621-636 | When the cell ahead lies outside the box or holds a wall, the move changes nothing |
| Board7.MoveRaises | hw7/src/Sokoban.java:621-645 | Reading a cell inside the box that its row does not have raises before anything changes |
| Board7.MoveRaisesOnlyOffGrid | hw7/src/Sokoban.java:619-658 | On a rectangular board with the player on it a move never raises, and a raise is always IndexOutOfBounds |
| Board7.PushPhaseFacts | hw7/src/Sokoban.java:638-648 | The push phase keeps every ground and the multiset of contents and touches only the cell ahead and the cell beyond |
| Board7.MoveKeepsGrounds | hw7/src/Sokoban.java:619-658 | A move keeps the board's shape and every ground |
| Board7.MoveFrame | hw7/src/Sokoban.java:619-658 | A move touches only the player's cell, the cell ahead and the cell beyond |
| Board7.MoveCarries | hw7/src/Sokoban.java:650-656 | A move either changes nothing or carries the player's content to the cell ahead and moves the cached position there |
| Board7.MoveContents | hw7/src/Sokoban.java:619-658 | A move neither creates nor destroys any content |
| Board7.MoveKeepsPlayer | hw7/src/Sokoban.java:619-658 | A move keeps the cached position on the cell holding the player |
| Board7.MoveBlocked | hw7/src/Sokoban.java:634-656 | When the cell ahead is occupied and can be neither entered nor pushed, the move changes nothing |
| Board7.MoveStep | hw7/src/Sokoban.java:650-656 | A step onto a blank cell moves the player's content there, blanks the old cell and moves the cached position |
| Board7.MovePush | hw7/src/Sokoban.java:639-656 | A push into a blank cell beyond moves the content ahead there and then steps the player ahead |
| Board7.SettledCell | hw7/src/Sokoban.java:681-690 | A cell whose hole swallows its content becomes normal floor holding blank; any other cell stays |
| Board7.Settled | hw7/src/Sokoban.java:681-690 | Settling changes every swallowing hole that way and no other cell, and keeps the shape |
| Board7.SettledIsSettled | hw7/src/Sokoban.java:681-690 | After settling no hole holds anything, and settling twice is settling once |
| Board7.SettledRemovesOnly | hw7/src/Sokoban.java:681-690 | Settling never adds a non-blank content |
| Board7.SettledState | hw7/src/Sokoban.java:681-690 | Settling keeps the player position and the shape |
| Board7.SettledKeepsPlayer | hw7/src/Sokoban.java:681-690 | A player not on a hole is still there after settling, so the level is not lost |
| Board7.SettledDropsPlayer | hw7/src/Sokoban.java:681-690 | A player on a hole is swallowed: its cell becomes normal floor holding blank |
| Sokoban7.InitialFacts | hw7/src/Sokoban.java:571-580 | A level that parses came from texts of equal length and has a non-empty board with the player at the cached position |
| Sokoban7.AfterKeyKeepsShape | hw7/src/Sokoban.java:764-775 | After any key the board is non-empty and the cached position addresses a cell |
| Sokoban7.AfterKeyNoRaise | hw7/src/Sokoban.java:764-775 | On a rectangular board with the player on it no key raises |
| Sokoban7.AfterKeyAddsNothing | hw7/src/Sokoban.java:764-775 | A key other than "r" never adds a non-blank content to the board |
| Sokoban7.ResetForgets | hw7/src/Sokoban.java:662-665 | "r" leads to the same state, the settled parsed level, whatever the state before |
| Sokoban7.Level.constructor | hw7/src/Sokoban.java:571-580 | The new level holds the parsed board and player position and keeps both texts |
| Sokoban7.Level.MovePlayer | hw7/src/Sokoban.java:619-658 | The in-place move leaves the board and position the move function gives, or raises that function's error and changes nothing |
| Sokoban7.Level.ResetLevel | hw7/src/Sokoban.java:662-665 | The board and position become those parsed from the stored texts |
| Sokoban7.Level.LevelWon | hw7/src/Sokoban.java:599-610 | Won exactly when every target holds the trophy of its colour |
| Sokoban7.Level.LevelLost | hw7/src/Sokoban.java:667-677 | Lost exactly when no cell holds the player |
| Sokoban7.Level.UpdateLevel | hw7/src/Sokoban.java:681-690 | The nested loops leave the settled board and keep the player position |
| Sokoban7.NewLevel | hw7/src/Sokoban.java:571-580 | Construction fails exactly when the texts do not parse, with the parser's error; otherwise the fresh level holds the parsed state |
| Sokoban7.Sokoban.constructor | hw7/src/Sokoban.java:734-737 | The world settles its level and records whether it is lost or won |
| Sokoban7.Sokoban.UpdateGameState | hw7/src/Sokoban.java:739-742 | The level is settled and the flag becomes "lost or won" of the settled board |
| Sokoban7.Sokoban.OnKeyEvent | hw7/src/Sokoban.java:764-775 | The level becomes the state the key produces (move or reset, then settle) and the flag is recomputed; a raising move changes nothing |
| Knitting.Render | hw8/src/Knitting.java:43-58 | A stitch renders as one character that is never a line break |
| Knitting.FlipStitch | hw8/src/Knitting.java:48-64 | Flipping gives the other stitch, which renders differently |
| Knitting.FlipStitchTwice | hw8/src/Knitting.java:48-64 | Flipping a stitch twice gives it back |
| Knitting.RenderInjective | hw8/src/Knitting.java:43-58 | Two stitches render alike exactly when they are the same |
| Knitting.RenderRow | hw8/src/Knitting.java:103-105 | A row renders as one character per stitch, in order |
| Knitting.RenderLength | hw8/src/Knitting.java:97-109 | The rendered length is the sum over the rows of their length plus one |
| Knitting.RenderRowsCons | hw8/src/Knitting.java:97-109 | The rendering is the first row, a line break, then the rendering of the rest |
| Knitting.RenderRowInjective | hw8/src/Knitting.java:103-105 | A row is determined by its rendering |
| Knitting.RenderRowsInjective | hw8/src/Knitting.java:97-109 | Two fabrics render alike exactly when they have the same rows of the same stitches |
| Knitting.FlipRow | hw8/src/Knitting.java:123-127 | A flipped row has the same length and holds at i the flip of the stitch at the mirrored index |
| Knitting.FlipRows | hw8/src/Knitting.java:118-132 | A flipped fabric has the same rows in the same order, each flipped |
| Knitting.FlipRowTwice | hw8/src/Knitting.java:122-129 | Flipping a row twice gives it back |
| Knitting.FlipRowsTwice | hw8/src/Knitting.java:118-132 | Flipping a fabric twice gives back the same stitches and so the same rendering |
| Knitting.LooksSameByRendering | hw8/src/Knitting.java:112-115 | Comparing renderings the way sameFabric does decides whether the other fabric is this one or this one's back |
| Knitting.LooksSameSymmetric | hw8/src/Knitting.java:112-115 | That relation is symmetric |
| Knitting.KnittedFabric.constructor | hw8/src/Knitting.java:73-75 | The fabric holds the given rows |
| Knitting.KnittedFabric.Empty | hw8/src/Knitting.java:78-80 | The new fabric has no rows |
| Knitting.KnittedFabric.AddRow | hw8/src/Knitting.java:84-94 | The stitches become a new last row, in order; earlier rows are kept; the same fabric is returned |
| Knitting.KnittedFabric.RenderFabric | hw8/src/Knitting.java:97-109 | The loops build the rendering of the rows, whose length is the sum of the row lengths plus one per row |
| Knitting.KnittedFabric.Flip | hw8/src/Knitting.java:118-132 | A fresh fabric holding the flipped rows; this fabric is not changed |
| Knitting.KnittedFabric.SameFabric | hw8/src/Knitting.java:112-115 | True exactly when the other fabric has the stitches of this one or of its back (reflexive) |

## Left out

- Drawing: sprites, `cellToImage`, `groundToImage`, `contentToImage`, `draw`, `drawStats`,
  `makeScene` and `lastScene`. They compose images and hold no game rule. The same goes for the
  rotation of the player sprite in the first version (`directionToDegrees`, floating point).
- The player's facing direction: no rule reads it. All player characters decode to the same
  `Player` content.
- Colour names are the four colours the parser produces, as an enumeration. The case-insensitive
  string comparison of trophy and target colours becomes equality on that enumeration.
- The javalib world plumbing: `bigBang`, and `endOfWorld` beyond recording that the world ended.
  The test classes are left out too.
- Iterators are sequences: `addRow` receives the stitches its iterator would yield.
- `samePosn` is the built-in equality on the `Posn` datatype.
- `Utils.split` is modelled for a single-character separator, the only one used (a newline).
- `Level(ArrayList)` in the first version is a test-only constructor. It leaves the player
  position and the texts unset, so it is not part of this model.
- The knitting instruction classes, including `makeFabric`. It is an unfinished stub whose loop
  has no body, so it is not part of this model.
- Sokoban7.Level: the board is a `seq` field and not a list of shared `Cell` objects. Aliasing
  between cells is not modelled. The two in-place updates of `movePlayer` (the push, then the
  step) are each one assignment of a new board (`Pushed`, then `Stepped`).
- Sokoban7.Level.MovePlayer: it requires a non-empty board with the cached position on it. The
  Java constructor guarantees this, because `findPlayer` only returns a position that exists.
- Sokoban7.Sokoban.OnKeyEvent: a raising move returns its error instead of propagating an
  exception, and the handler stops there as the Java code would.
- Level8.MovePlayer, SlidePlayer, SlideContent, SwitchLevel: the ice-version engine requires a
  rectangular board, non-empty with rows of equal length. The Java bounds box uses the width of
  row 0, and the parser accepts ragged text. A ragged board there would read cells past a short
  row. The first version's model handles ragged boards explicitly, as `IndexOutOfBounds`.
- Level8.NewLevel, Sokoban7.NewLevel: more than one player character is not rejected. The
  parser keeps the first one it finds, as `Utils.findPlayer` does.
- Level8.UndoMove: undoing at the root keeps the board and adds a step, as the Java code and its
  tests do (hw8/src/Sokoban.java:1795 and :1808).
- The first version's key handler does not look at `gameOver`. After the player falls into a
  hole, arrow keys still move the blank at the cached position, and can still push boxes.
  The model keeps this.
- Moves8.MovePlayerBounded: the two edge cases of the Java move are closed as described under
  "## Findings". A move off the board leaves the level as it is, and a slide whose next cell is
  off the board stops. The world of the ice version uses this corrected move.

## Findings

| source | as written | input that shows it | evidently intended | confidence | as-written member | corrected member |
|---|---|---|---|---|---|---|
| hw8/src/Sokoban.java:960-981 | After a step or push, `movePlayer` calls `slideContent(pushToPos, …)` and `slidePlayer(moveToPos, …)`. Both read their start cell and the cell beyond with `findCell`, without a bounds check (see the note at :1088). So a move ending next to the board edge in the move direction raises "out of bounds". | The one-row board `[player on normal floor, blank on normal floor]`, moving right | The step is made and the level is returned. A slide whose next cell lies off the board stops. | not executed | Moves8.EdgeStepRaises (on Level8.MovePlayer) | Moves8.MovePlayerBounded, with Moves8.MovePlayerAgrees |
| hw8/src/Sokoban.java:960-965 | `movePlayer` reads the cell ahead with `findCell(moveToPos)` before any check. So a player on the last cell of a row (or column) moving outwards raises "out of bounds", although `canMoveTo` is written to answer false for a target off the board. | The one-cell board `[player on normal floor]`, moving right | The move is refused and the same level is returned, as for a wall. | not executed | Moves8.EdgeMoveOutRaises (on Level8.MovePlayer) | Moves8.MovePlayerBounded, with Moves8.MovePlayerAgrees and Moves8.MoveBlocked |
