# uml-computing4 in Dafny

This project models and verifies the computational core of a set of C++
course assignments. Each assignment has its own module, and one Dafny file
covers each source file:

- **ps1a / ps1b: the Fibonacci LFSR.**
  - ps1a keeps the register as a bitset, ps1b as an `int` with a mask.
  - Both have `step` and `generate` and print the register.
- **ps1b PhotoMagic: image encryption.** It xors every pixel with three 8-bit
  keys drawn from the register. It also folds a password into a 16-bit binary
  seed.
- **ps3b: Sokoban.** A row-major tile grid with a checked index, the
  game's `movePlayer`/`moveBox`/`reset`/`update`, and the "H:MM:SS" clock.
- **sokoban_remake: a second Sokoban.** A column-major tile map, 32-bit
  unsigned coordinates, the level reader (`operator>>`) and the level writer
  (`operator<<`).
- **ps5: edit distance (optimal sequence alignment).** It comes in four
  strategies:
  - the plain Needleman-Wunsch matrix;
  - an edge-walking variant (`EDistance`);
  - a linear-space variant that keeps one column and one row;
  - Hirschberg's divide-and-conquer with its arrow path.
  A shared reference theory (`Alignments`) defines the optimal cost
  recursively. It proves that the cost is the minimum over all alignments,
  that the traceback attains it, and that the cost splits at a row.
- **ps6: Markov text writers.**
  - A frequency store per k-gram.
  - A generic two-level symbol table.
  - The character-level `RandWriter` and the word-level `WordWriter`.
  Each writer does its counting over the circular text and generates text.
- **ps0: the key and movement flags of the controllable sprite.**
- **playground/find-mode: the mode finder.**

Classes stay classes where the C++ code updates fields in place. Loops stay
`while`/`for` loops with invariants. Each class method is proved against a
specification function, and the properties the programs promise are proved
about those functions.

## Model

| member | source | states |
|---|---|---|
| AbstractEDistance.Penalty | assignment/ps5/AbstractEDistance.cpp:8 | the mismatch cost is at most 1, and 0 exactly when the two symbols are equal |
| AbstractEDistance.PenaltySymmetric | assignment/ps5/AbstractEDistance.cpp:8 | the mismatch cost does not depend on the order of the symbols |
| AbstractEDistance.Min3 | assignment/ps5/AbstractEDistance.cpp:10-12 | the result is one of the three values and no greater than any of them |
| AbstractEDistance.ScoringFixtures | assignment/ps5/test.cpp:11-22 | the values the unit tests expect for `penalty` and `min3` |
| Alignments.CostStepBounds | assignment/ps5/NeedlemanWunschEDistance.cpp:33-43 | each of the three recurrence moves (gap in Y, gap in X, pair) bounds the optimal cost from above |
| Alignments.CostCell | assignment/ps5/NeedlemanWunschEDistance.cpp:33-43 | a matrix cell's cost is the Min3 of its right, lower and diagonal neighbours plus gap or mismatch cost |
| Alignments.CellFromNeighbours | assignment/ps5/NeedlemanWunschEDistance.cpp:40-42 | neighbours that hold their optimal costs give the cell its optimal cost |
| Alignments.CostIsMinimal | assignment/ps5/NeedlemanWunschEDistance.cpp:15-46 | no alignment of x with y costs less than the matrix cost |
| Alignments.TracebackIsOptimal | assignment/ps5/NeedlemanWunschEDistance.cpp:59-81 | the traceback (down, else right, else diagonal) aligns x with y, and its total cost equals the optimal cost |
| Alignments.TracebackAt | assignment/ps5/NeedlemanWunschEDistance.cpp:61-77 | read at cell (i, j), the traceback's next column is a gap in Y when the cell below is two cheaper, else a gap in X when the right cell is, else the pair |
| Alignments.OptimalAlignment | assignment/ps5/NeedlemanWunschEDistance.cpp:45 | some alignment attains the optimal cost |
| Alignments.AlignmentLength | assignment/ps5/HirshbergEDistance.cpp:18-24 | an alignment has between max(|x|, |y|) and |x| + |y| columns |
| Alignments.ReverseColumns | assignment/ps5/HirshbergEDistance.cpp:87-101 | reversing an alignment reverses both strings and keeps its cost |
| Alignments.CostReverse | assignment/ps5/HirshbergEDistance.cpp:87-101 | the optimal cost of the two reversed strings equals that of the strings themselves |
| Alignments.SplitUpperBound | assignment/ps5/HirshbergEDistance.cpp:137-158 | any split of x at h and y at q costs at least the optimal cost |
| Alignments.CutAtTop | assignment/ps5/HirshbergEDistance.cpp:137-140 | every alignment can be cut where it has consumed exactly h symbols of x |
| Alignments.SplitIsTight | assignment/ps5/HirshbergEDistance.cpp:142-150 | for every h, some split point q of y makes the two halves' costs add up to the optimal cost |
| Alignments.CostLowerBound | assignment/ps5/HirshbergEDistance.cpp:117-135 | the optimal cost is at least 2 times the length difference |
| Alignments.CostUpperBound | assignment/ps5/HirshbergEDistance.cpp:117-135 | the optimal cost is at most min(|x|, |y|) plus 2 times the length difference |
| Alignments.NoDoubleTie | assignment/ps5/HirshbergEDistance.cpp:123-132 | when one string has at most two symbols, the cells below and to the right are never both two cheaper, so the base-case walk always advances |
| Alignments.CostOfDisjoint | assignment/ps5/AbstractEDistance.cpp:8 | strings sharing no symbol have cost min(|x|, |y|) + 2 * length difference |
| Alignments.CostWithEmpty | assignment/ps5/NeedlemanWunschEDistance.cpp:24-31 | aligning with the empty string costs 2 per symbol, which gives the last row and column |
| Alignments.CostOfSelf | assignment/ps5/AbstractEDistance.cpp:8 | a string aligns with itself at cost 0 |
| Alignments.CostSymmetric | assignment/ps5/AbstractEDistance.cpp:8-12 | the optimal cost does not depend on the order of the two strings |
| AlignmentText.RenderAppend | assignment/ps5/NeedlemanWunschEDistance.cpp:80 | printing one more column appends its line to the text |
| AlignmentText.RenderLines | assignment/ps5/NeedlemanWunschEDistance.cpp:80 | the printed alignment has six characters per column, and line k shows column k's symbols and cost |
| AlignmentText.GapsDropToStrings | assignment/ps5/NeedlemanWunschEDistance.cpp:67-80 | deleting the gaps from the printed first or second column gives back X or Y |
| NeedlemanWunschEDistance.FillCostMatrix | assignment/ps5/NeedlemanWunschEDistance.cpp:15-43 | every cell (i, j) of the fresh matrix holds the optimal cost of X[i..] against Y[j..] |
| NeedlemanWunschEDistance.FillColumn | assignment/ps5/NeedlemanWunschEDistance.cpp:33-43 | filling one column bottom-up, with the columns to its right filled, makes it hold its costs |
| NeedlemanWunschEDistance.TracebackMove | assignment/ps5/NeedlemanWunschEDistance.cpp:61-80 | the isFromBottom/isFromRight tests pick the traceback's next column, and the printed line is that column's line |
| NeedlemanWunschEDistance.WalkStep | assignment/ps5/NeedlemanWunschEDistance.cpp:59-81 | printing one traceback move keeps the printed text a prefix of the traceback |
| NeedlemanWunschEDistance.WalkDone | assignment/ps5/NeedlemanWunschEDistance.cpp:59-83 | at the bottom-right corner the whole traceback has been printed |
| NeedlemanWunschEDistance.NeedlemanWunschEDistance.constructor | assignment/ps5/NeedlemanWunschEDistance.cpp:11-13 | stores the strings, with no matrix yet |
| NeedlemanWunschEDistance.NeedlemanWunschEDistance.OptDistance | assignment/ps5/NeedlemanWunschEDistance.cpp:15-46 | returns the optimal alignment cost and keeps the filled matrix |
| NeedlemanWunschEDistance.NeedlemanWunschEDistance.Matrix | assignment/ps5/NeedlemanWunschEDistance.cpp:96 | a matrix that is present holds the optimal cost in every cell |
| NeedlemanWunschEDistance.NeedlemanWunschEDistance.TracebackStep | assignment/ps5/NeedlemanWunschEDistance.cpp:61-80 | one move advances towards the corner and prints the traceback's next column |
| NeedlemanWunschEDistance.NeedlemanWunschEDistance.Alignment | assignment/ps5/NeedlemanWunschEDistance.cpp:48-84 | the printed text is the whole traceback, whose cost is optimal (TracebackIsOptimal) |
| EDistanceClass.EdgeWalkIsTracebackPrefix | assignment/ps5/EDistance.cpp:72-91 | the edge walk is the traceback cut off once either string is used up, and its cost plus the rest's optimal cost is the optimal cost |
| EDistanceClass.FirstMove | assignment/ps5/EDistance.cpp:72-91 | with both strings non-empty, the walk and the traceback take the same first column |
| EDistanceClass.CellMoves | assignment/ps5/EDistance.cpp:42-52 | the cells below and to the right say which traceback move applies |
| EDistanceClass.EdgeWalkAt | assignment/ps5/EDistance.cpp:72-91 | one step of the walk at a cell inside the matrix |
| EDistanceClass.EdgeWalkStep | assignment/ps5/EDistance.cpp:72-91 | printing one move keeps the text a prefix of the walk |
| EDistanceClass.EdgeWalkDone | assignment/ps5/EDistance.cpp:72-93 | once either string is used up, the printed text is the whole walk |
| EDistanceClass.TrailingGapDropped | assignment/ps5/EDistance.cpp:72 | for X = "ab" and Y = "a" the walk prints only "a a 0" at cost 0, while the optimal alignment costs 2 |
| EDistanceClass.EDistance.constructor | assignment/ps5/EDistance.cpp:17-18 | stores the strings, with no matrix and no Hirschberg array |
| EDistanceClass.EDistance.OptDistance | assignment/ps5/EDistance.cpp:20-55 | fills a fresh matrix and returns the optimal cost |
| EDistanceClass.EDistance.PopulateMatrixHirschberg | assignment/ps5/EDistance.cpp:57-62 | allocates |X| + 1 cells, leaves the matrix alone and returns 0 |
| EDistanceClass.EDistance.EdgeStep | assignment/ps5/EDistance.cpp:72-91 | one move of the loop prints the walk's next column and advances |
| EDistanceClass.EDistance.Alignment | assignment/ps5/EDistance.cpp:64-94 | the printed text is exactly the edge walk |
| OptimizedEDistance.UpdatedBelowStep | assignment/ps5/OptimizedEDistance.cpp:26-33 | overwriting one cell with the Min3 of its neighbours moves the updated boundary up one row |
| OptimizedEDistance.NextColumn | assignment/ps5/OptimizedEDistance.cpp:22-37 | turns the column for Y[i + 1..] into the column for Y[i..] in place |
| OptimizedEDistance.LastColumn | assignment/ps5/OptimizedEDistance.cpp:15-17 | the initial column holds the cost of each suffix of X against nothing |
| OptimizedEDistance.SweepColumns | assignment/ps5/OptimizedEDistance.cpp:19-37 | after the sweep the column is matrix column 0 and the row is matrix row 0 |
| OptimizedEDistance.OptimizedEDistance.constructor | assignment/ps5/OptimizedEDistance.cpp:5-9 | stores the strings and zero-fills a column of |X| + 1 and a row of |Y| + 1 |
| OptimizedEDistance.OptimizedEDistance.OptDistance | assignment/ps5/OptimizedEDistance.cpp:11-40 | returns the optimal cost; afterwards column[r] and row[c] hold the optimal costs of X[r..] against Y and of X against Y[c..] |
| OptimizedEDistance.OptimizedEDistance.Row | assignment/ps5/OptimizedEDistance.cpp:44 | the recorded row has |Y| + 1 entries, those of the row array |
| OptimizedEDistance.OptimizedEDistance.Alignment | assignment/ps5/OptimizedEDistance.cpp:42 | always fails: no alignment is kept |
| ArrowPath.Advance | assignment/ps5/HirshbergEDistance.cpp:130-131 | each alignment column advances the path by at least one anti-diagonal |
| ArrowPath.RowsCols | assignment/ps5/HirshbergEDistance.cpp:130-131 | the rows and columns a path advances are the lengths of the two aligned strings |
| ArrowPath.EndOfAlignment | assignment/ps5/HirshbergEDistance.cpp:60-82 | an alignment of x with y walks from the start to the start plus (|x|, |y|) |
| ArrowPath.InitPath | assignment/ps5/HirshbergEDistance.cpp:18-24 | the initial arrow path has |X| + |Y| + 1 slots and ends at the corner |
| ArrowPath.Write | assignment/ps5/HirshbergEDistance.cpp:161-163 | writing a coordinate keeps the path's length |
| ArrowPath.RecordFrame | assignment/ps5/HirshbergEDistance.cpp:161-163 | recording an alignment changes only the slots of the anti-diagonals it crosses |
| ArrowPath.RecordConcat | assignment/ps5/HirshbergEDistance.cpp:156-158 | recording two halves one after the other records their concatenation |
| ArrowPath.RecordSplit | assignment/ps5/HirshbergEDistance.cpp:152-158 | inserting the split cell and recording both halves records the whole alignment |
| ArrowPath.RecordIdempotent | assignment/ps5/HirshbergEDistance.cpp:161-163 | recording the same alignment twice changes nothing more |
| ArrowPath.RecordedOnDiagonals | assignment/ps5/HirshbergEDistance.cpp:161-163 | every recorded slot s holds a cell on anti-diagonal s |
| ArrowPath.RecordedTotal | assignment/ps5/HirshbergEDistance.cpp:29-48 | summing the costs along the recorded path gives the alignment's total cost |
| ArrowPath.RecordedText | assignment/ps5/HirshbergEDistance.cpp:60-82 | printing along the recorded path gives the alignment's text |
| ArrowPath.RerunPath | assignment/ps5/HirshbergEDistance.cpp:15-27 | a rerun of optDistance appends a fresh path, and its front slots are the recorded alignment |
| ArrowPath.RerunInitPath | assignment/ps5/HirshbergEDistance.cpp:18-27 | the first |X| + |Y| + 1 slots after a run are the recorded path |
| ArrowPath.FrontTotal | assignment/ps5/HirshbergEDistance.cpp:29-48 | the cost loop reads only the path's first |X| + |Y| + 1 slots and sums the alignment |
| ArrowPath.FrontText | assignment/ps5/HirshbergEDistance.cpp:60-82 | the alignment loop reads only the front slots and prints the alignment |
| ArrowPath.SumArrowPath | assignment/ps5/HirshbergEDistance.cpp:29-48 | the cost loop returns the total read along the arrow path |
| ArrowPath.RecordedPathCost | assignment/ps5/HirshbergEDistance.cpp:29-48 | on a path holding a recorded alignment, the cost loop returns that alignment's total cost |
| HirshbergEDistance.SplitSums | assignment/ps5/HirshbergEDistance.cpp:137-146 | entry q is the optimal cost of the upper half against Y[..q] plus that of the lower half against Y[q..] |
| HirshbergEDistance.ScanBest | assignment/ps5/HirshbergEDistance.cpp:142-150 | the scan returns its start value or an index it has scanned |
| HirshbergEDistance.ScanBestIsFirstMinimum | assignment/ps5/HirshbergEDistance.cpp:142-150 | the scan returns the first index of a minimal sum |
| HirshbergEDistance.BestSplit | assignment/ps5/HirshbergEDistance.cpp:142-150 | the split point is within Y; the scan as written (`q < yLength`) never picks q = |Y| |
| HirshbergEDistance.BestSplitIsFirstMinimum | assignment/ps5/HirshbergEDistance.cpp:142-150 | the chosen q is the first minimum of the split sums among the q scanned |
| HirshbergEDistance.HirschbergAligns | assignment/ps5/HirshbergEDistance.cpp:111-159 | the divide-and-conquer result aligns X with Y, for either scan |
| HirshbergEDistance.HirschbergIsOptimal | assignment/ps5/HirshbergEDistance.cpp:111-159 | with the scan including q = |Y|, the alignment's cost is the optimal cost |
| HirshbergEDistance.AsWrittenNeverBelowCost | assignment/ps5/HirshbergEDistance.cpp:111-159 | the alignment as written never costs less than the optimum |
| HirshbergEDistance.SplitChoices | assignment/ps5/HirshbergEDistance.cpp:144 | for X = aaabbb and Y = aaa, the scan as written picks q = 2, and the full scan picks q = 3 |
| HirshbergEDistance.AsWrittenFixture | assignment/ps5/HirshbergEDistance.cpp:111-159 | for X = aaabbb and Y = aaa, the alignment as written costs 7 |
| HirshbergEDistance.DistanceFixture | assignment/ps5/NeedlemanWunschEDistance.cpp:15-46 | the optimal cost of aaabbb against aaa is 6 |
| HirshbergEDistance.AsWrittenMissesLastColumn | assignment/ps5/HirshbergEDistance.cpp:144 | for X = aaabbb and Y = aaa, the alignment as written costs more than the optimal cost |
| HirshbergEDistance.AllYPrefixCosts | assignment/ps5/HirshbergEDistance.cpp:87-101 | entry q is the optimal cost of x against Y[..q] |
| HirshbergEDistance.AllYSuffixCosts | assignment/ps5/HirshbergEDistance.cpp:103-109 | entry q is the optimal cost of x against Y[q..], read from the row of one optimized run on x and Y as given, with no reversal |
| HirshbergEDistance.BaseMove | assignment/ps5/HirshbergEDistance.cpp:123-132 | one base-case move follows the traceback and advances i and j by the column's shape |
| HirshbergEDistance.HirschbergJoin | assignment/ps5/HirshbergEDistance.cpp:152-158 | the two recursive halves align the halves of X with Y[..q] and Y[q..], and together form the result |
| HirshbergEDistance.ScanIsBestSplit | assignment/ps5/HirshbergEDistance.cpp:142-150 | the scan over the split sums picks the as-written split |
| HirshbergEDistance.ProfilesAddUp | assignment/ps5/HirshbergEDistance.cpp:137-146 | the prefix and suffix cost rows add up to the split sums |
| HirshbergEDistance.ScanSums | assignment/ps5/HirshbergEDistance.cpp:142-150 | the scan loop returns the first minimum of the sums it visits |
| HirshbergEDistance.ChooseSplit | assignment/ps5/HirshbergEDistance.cpp:137-150 | the split loop returns the as-written best split |
| HirshbergEDistance.RerunRecursion | assignment/ps5/HirshbergEDistance.cpp:15-27 | after a run, the front of the arrow path is the recorded Hirschberg alignment, and it costs at least the optimum |
| HirshbergEDistance.HirshbergEDistance.constructor | assignment/ps5/HirshbergEDistance.cpp:12-13 | stores the strings, with an empty arrow path |
| HirshbergEDistance.HirshbergEDistance.InsertArrowPathCoordinate | assignment/ps5/HirshbergEDistance.cpp:161-163 | stores a cell in the slot of its anti-diagonal |
| HirshbergEDistance.HirshbergEDistance.AlignBase | assignment/ps5/HirshbergEDistance.cpp:117-135 | the base case records the Needleman-Wunsch traceback of its two pieces |
| HirshbergEDistance.HirshbergEDistance.Align | assignment/ps5/HirshbergEDistance.cpp:111-159 | records the as-written Hirschberg alignment of the pieces at their offset |
| HirshbergEDistance.HirshbergEDistance.OptDistance | assignment/ps5/HirshbergEDistance.cpp:15-49 | returns the cost of the as-written alignment, which is never below the optimal cost |
| HirshbergEDistance.HirshbergEDistance.Alignment | assignment/ps5/HirshbergEDistance.cpp:51-85 | prints the alignment recorded by optDistance |
| ElapsedTimes.ElapsedTime.constructor | assignment/ps3b/SokobanElapsedTime.hpp:36 | the clock starts at 0 microseconds |
| ElapsedTimes.ElapsedTime.Update | assignment/ps3b/SokobanElapsedTime.cpp:30 | advances the clock by dt |
| ElapsedTimes.TruncDiv | assignment/ps3b/SokobanElapsedTime.cpp:11 | signed division truncates toward zero |
| ElapsedTimes.Seconds | assignment/ps3b/SokobanElapsedTime.cpp:11 | the whole seconds as an unsigned 32-bit number, the true quotient when it fits |
| ElapsedTimes.ClockTextReadsBack | assignment/ps3b/SokobanElapsedTime.cpp:11-19 | the text is H:MM:SS with two-digit minutes and seconds below 60, and reads back as the whole seconds |
| ElapsedTimes.ClockTextInjective | assignment/ps3b/SokobanElapsedTime.cpp:11-19 | two clocks showing the same text have the same whole seconds |
| ElapsedTimes.ClockTextExample | assignment/ps3b/SokobanElapsedTime.cpp:11-19 | 3661 seconds show as "1:01:01" |
| Decimals.Digit | assignment/ps3b/SokobanElapsedTime.cpp:16-18 | the decimal digit character of a value below ten |
| Decimals.Decimal | assignment/ps3b/SokobanElapsedTime.cpp:18 | `to_string`: at least one digit, with no leading zero |
| Decimals.DecimalValue | assignment/ps3b/SokobanElapsedTime.cpp:18 | reading back the decimal text of n gives n |
| Decimals.DecimalInjective | assignment/ps3b/SokobanElapsedTime.cpp:18 | different numbers have different decimal texts |
| Decimals.TwoDigits | assignment/ps3b/SokobanElapsedTime.cpp:16-17 | a number below 100 as exactly two digits, padded with a zero, that read back as the number |
| TileChars.FromChar | assignment/ps3b/SokobanConstants.hpp:30-35 | the cast from a level char: casting back gives the same char, and the six named chars are the six named tiles |
| TileChars.CharRoundTrip | assignment/ps3b/SokobanConstants.hpp:30-35 | every tile comes back from its char |
| TileChars.UpdateCount | assignment/ps3b/Sokoban.cpp:178-203 | rewriting one tile moves one unit of count from its old kind to its new kind |
| TileChars.CountAppend | assignment/ps3b/Sokoban.cpp:72-86 | the counts of two grids one after the other add up |
| TileChars.Cleared | assignment/ps3b/Sokoban.cpp:72-86 | the level with every player tile turned empty and nothing else changed |
| TileChars.LastPlayer | assignment/ps3b/Sokoban.cpp:72-86 | the last player tile in row-major order, or none when there is no player tile |
| TileChars.ClearedCounts | assignment/ps3b/Sokoban.cpp:72-86 | a cleared level has no player tile and keeps the counts of boxes, storages and walls |
| TileGrids.CellOf | assignment/ps3b/SokobanTileGrid.cpp:45 | the coordinate of a linear index: its column is within the width and it maps back to the index |
| TileGrids.TileAt | assignment/ps3b/SokobanTileGrid.cpp:44-51 | throws exactly when the linear index is outside the grid, and otherwise gives the tile at that index |
| TileGrids.SetThenGet | assignment/ps3b/SokobanTileGrid.cpp:44-62 | after setting a tile, reading it back gives the tile, and other indices are unchanged |
| TileGrids.ColumnPastEdge | assignment/ps3b/SokobanTileGrid.cpp:45-46 | only the linear index is checked: column = width reads the first tile of the next row |
| TileGrids.VisitAll | assignment/ps3b/SokobanTileGrid.cpp:29-38 | a callback that never stops, as `draw` passes, is called on every non-null tile |
| TileGrids.VisitStopsAtFirst | assignment/ps3b/SokobanTileGrid.cpp:64-74 | the calls are a prefix of the non-null tiles in row-major order, and the traversal stops right after the first call returning true |
| TileGrids.TilesFromOrdered | assignment/ps3b/SokobanTileGrid.cpp:67-68 | coordinates are visited in strictly increasing row-major order |
| TileGrids.TileGrid.constructor | assignment/ps3b/SokobanTileGrid.hpp:79-108 | a grid with the given width, height and tile slots, as the level loader fills it |
| TileGrids.TileGrid.GetTile | assignment/ps3b/SokobanTileGrid.cpp:44-51 | the tile at the coordinate, or InvalidCoordinate |
| TileGrids.TileGrid.SetTile | assignment/ps3b/SokobanTileGrid.cpp:53-62 | replaces exactly the slot at the coordinate's index, or throws and changes nothing |
| TileGrids.TileGrid.TraverseTileGrid | assignment/ps3b/SokobanTileGrid.cpp:64-74 | the calls made are the row-major visit that stops after the first true |
| TileGrids.RowMajorCell | assignment/ps3b/SokobanTileGrid.cpp:67-69 | cell (col, row) of the grid is linear index row * width + col, inside the grid |
| Sokobans.NextLocIsNeighbour | assignment/ps3b/Sokoban.cpp:158-176 | a step changes exactly one coordinate, by exactly one |
| Sokobans.NextIndex | assignment/ps3b/Sokoban.cpp:158-176 | a step moves the linear index by one or by a row |
| Sokobans.TileCharAt | assignment/ps3b/SokobanTileGrid.cpp:44-51 | the tile char at a coordinate, or InvalidCoordinate when its index is outside the grid |
| Sokobans.PushBox | assignment/ps3b/Sokoban.cpp:178-203 | a box moves only into an empty tile or a storage; onto a storage it becomes a box on storage and the score rises by one; otherwise nothing changes |
| Sokobans.Move | assignment/ps3b/Sokoban.cpp:20-58 | a won game does not move; otherwise the player turns, and steps onto the target when it is free or its box can be pushed |
| Sokobans.MoveSucceedsWhen | assignment/ps3b/Sokoban.cpp:20-58 | the player steps exactly when the target is on the board, is neither a wall nor a box on storage, and holds no box or a box that can be pushed |
| Sokobans.PushCounts | assignment/ps3b/Sokoban.cpp:178-203 | a push changes the counts of only the two tiles it rewrites |
| Sokobans.MoveKeeps | assignment/ps3b/Sokoban.cpp:20-58 | a move keeps the board's shape, the number of boxes, and the score equal to the number of boxes on storage |
| Sokobans.MoveStands | assignment/ps3b/Sokoban.cpp:20-58 | a player standing off walls and boxes still does so after a move |
| Sokobans.ResetSettles | assignment/ps3b/Sokoban.cpp:60-100 | a reset board is scored, its player stands on an empty tile, and resetting again changes nothing |
| Sokobans.Sokoban.constructor | assignment/ps3b/Sokoban.cpp:15-18 | an empty board with score 0 of 1, no moves and a stopped clock |
| Sokobans.Sokoban.Load | assignment/ps3b/Sokoban.cpp:123-142 | stores the level and its size, then resets |
| Sokobans.Sokoban.Reset | assignment/ps3b/Sokoban.cpp:60-100 | restores the level, recounts the score and maximum score, places the player, clears the win latch, moves and clock |
| Sokobans.Sokoban.TraverseLevel | assignment/ps3b/Sokoban.cpp:72-86 | clears the player tiles, puts the player on the last one, and counts boxes, storages and boxes on storage |
| Sokobans.Sokoban.VisitTile | assignment/ps3b/Sokoban.cpp:72-86 | one callback of the reset traversal does what VisitStep says: a player tile moves the player there and is cleared, and a box, storage or box on storage is counted |
| Sokobans.TraversedPrefix | assignment/ps3b/Sokoban.cpp:72-86 | after the callbacks on the first p tiles, those tiles are cleared and the rest untouched, the player is on the last player tile among them, and the counts are theirs |
| Sokobans.VisitPrefix | assignment/ps3b/Sokoban.cpp:73-85 | one more callback moves that description on by one tile |
| Sokobans.Sokoban.MovePlayer | assignment/ps3b/Sokoban.cpp:20-58 | the new state is Move's; when a push throws, only the orientation has changed |
| Sokobans.Sokoban.MoveBox | assignment/ps3b/Sokoban.cpp:178-203 | the new board and result are PushBox's, or InvalidCoordinate with nothing changed |
| Sokobans.Sokoban.Update | assignment/ps3b/Sokoban.cpp:102-121 | the clock runs only while the game is not won; the first won frame latches the win and resets the orientation |
| Sokobans.ResetStep | assignment/ps3b/Sokoban.cpp:72-86 | one step of the reset loop grows the cleared prefix, the player cell and the counts by the tile at p |
| SokobanRemakes.Wrap | assignment/sokoban_remake/src/Sokoban.cpp:115-128 | unsigned 32-bit wrap-around: −1 becomes 2^32 − 1 and 2^32 becomes 0 |
| SokobanRemakes.Reverse | assignment/sokoban_remake/src/Sokoban.cpp:115-128 | the reverse of a direction is a different direction |
| SokobanRemakes.NextCoordBack | assignment/sokoban_remake/src/Sokoban.cpp:115-128 | stepping and then stepping back in the reverse direction returns to the start, even across the wrap |
| SokobanRemakes.NextCoordMoves | assignment/sokoban_remake/src/Sokoban.cpp:115-128 | a step always changes the coordinate |
| SokobanRemakes.NextCoordLeaves | assignment/sokoban_remake/src/Sokoban.cpp:115-128 | a step leaves the board exactly when it crosses the matching edge |
| SokobanRemakes.Set | assignment/sokoban_remake/src/Sokoban.hpp:54 | writing one cell of the column-major map changes that cell only |
| SokobanRemakes.TotalSet | assignment/sokoban_remake/src/Sokoban.cpp:143-159 | writing one cell moves one unit of count from the old tile kind to the new one |
| SokobanRemakes.TotalRows | assignment/sokoban_remake/src/Sokoban.cpp:161-171 | counting over the map equals counting over its row-major listing |
| SokobanRemakes.TestBoxNextCoord | assignment/sokoban_remake/src/Sokoban.cpp:130-141 | the box can move exactly when the next cell is on the board and free, and then returns that cell |
| SokobanRemakes.MovedBox | assignment/sokoban_remake/src/Sokoban.cpp:143-159 | moving a box keeps the map's shape |
| SokobanRemakes.MovedBoxCells | assignment/sokoban_remake/src/Sokoban.cpp:143-159 | the old box cell is emptied or returned to storage, and the new cell holds a box or a box on storage |
| SokobanRemakes.MovedBoxKeepsStored | assignment/sokoban_remake/src/Sokoban.cpp:143-159 | after a box move, the stored count still equals the number of boxes on storage |
| SokobanRemakes.MovedBoxKeepsBoxes | assignment/sokoban_remake/src/Sokoban.cpp:143-159 | moving a box keeps the number of boxes |
| SokobanRemakes.MovePlay | assignment/sokoban_remake/src/Sokoban.cpp:38-64 | a won game does not move; otherwise the player faces d and either stays or steps to the next cell |
| SokobanRemakes.MoveCases | assignment/sokoban_remake/src/Sokoban.cpp:38-64 | the player steps onto free cells, and onto a box cell only when the box can be pushed |
| SokobanRemakes.MoveSteps | assignment/sokoban_remake/src/Sokoban.cpp:38-64 | when the player steps, the tiles change only as the box push says |
| SokobanRemakes.MoveKeepsStored | assignment/sokoban_remake/src/Sokoban.cpp:38-64 | a move keeps the stored count equal to the boxes on storage, so `isWon` stays meaningful |
| SokobanRemakes.MoveKeepsBoxes | assignment/sokoban_remake/src/Sokoban.cpp:38-64 | with a box on storage counted as not free, a move keeps the number of boxes |
| SokobanRemakes.PushLosesBox | assignment/sokoban_remake/src/Sokoban.cpp:52-58 | as written, a box pushed onto a box on storage is lost; with the correction, the push is refused |
| SokobanRemakes.MoveStaysEnclosed | assignment/sokoban_remake/src/Sokoban.cpp:38-64 | on a level walled on its border, the next cell is on the board and a move keeps the level walled |
| SokobanRemakes.ReadTile | assignment/sokoban_remake/src/Sokoban.cpp:180-206 | reading one char stores its tile, moves the start to a player tile and counts it |
| SokobanRemakes.ReadRow | assignment/sokoban_remake/src/Sokoban.cpp:180-206 | reading one row gives the reader's state after that row |
| SokobanRemakes.ReadLevel | assignment/sokoban_remake/src/Sokoban.cpp:173-211 | the read map is the level, the start is its last player tile, and the tally counts its tiles |
| SokobanRemakes.Sokoban.Load | assignment/sokoban_remake/src/Sokoban.cpp:173-211 | the loaded game holds the level, start and counts, and is reset |
| SokobanRemakes.Sokoban.Reset | assignment/sokoban_remake/src/Sokoban.cpp:70-75 | restores the initial map, player, direction and stored count |
| SokobanRemakes.Sokoban.MovePlayer | assignment/sokoban_remake/src/Sokoban.cpp:38-64 | the new state is the move as written (MovePlay) |
| SokobanRemakes.Sokoban.MoveBox | assignment/sokoban_remake/src/Sokoban.cpp:143-159 | the new map and stored count are MovedBox's |
| SokobanRemakes.NewColumns | assignment/sokoban_remake/src/Sokoban.cpp:176-178 | allocates width columns of height unset tiles |
| SokobanRemakes.LoadedStored | assignment/sokoban_remake/src/Sokoban.cpp:192-204 | the counted boxes on storage equal those in the loaded map |
| RemakeLevels.Grid | assignment/sokoban_remake/src/Sokoban.cpp:180-206 | the column-major map of a row-major tile list has width columns of height cells |
| RemakeLevels.GridCell | assignment/sokoban_remake/src/Sokoban.hpp:56-58 | cell (x, y) of the map is tile y * width + x of the list |
| RemakeLevels.GridOfRows | assignment/sokoban_remake/src/Sokoban.cpp:161-171 | listing a map row by row and rebuilding the map gives the map back |
| RemakeLevels.RowsOfGrid | assignment/sokoban_remake/src/Sokoban.cpp:161-211 | building a map from a list and listing it row by row gives the list back |
| RemakeLevels.Tiles | assignment/sokoban_remake/src/Sokoban.hpp:19-26 | each char becomes its tile |
| RemakeLevels.NonBlank | assignment/sokoban_remake/src/Sokoban.cpp:180-186 | the chars the reader sees: whitespace is skipped |
| RemakeLevels.LevelMap | assignment/sokoban_remake/src/Sokoban.cpp:173-211 | the map the reader builds has width columns of height cells |
| RemakeLevels.BodyReadsBack | assignment/sokoban_remake/src/Sokoban.cpp:161-171 | the rows the writer prints, read again, give back the map's rows |
| RemakeLevels.CastBack | assignment/sokoban_remake/src/Sokoban.cpp:187-190 | casting tiles to chars and back gives the tiles, with the player tile cleared |
| RemakeLevels.ShowReadsBack | assignment/sokoban_remake/src/Sokoban.cpp:161-211 | reading the writer's output gives back the dimensions and the map |
| RemakeLevels.StartOf | assignment/sokoban_remake/src/Sokoban.cpp:187-190 | the start is the last player tile in row-major order, or (0, 0) when there is none |
| RemakeLevels.FilledGrid | assignment/sokoban_remake/src/Sokoban.cpp:180-206 | a map whose cells are all filled from the list is that list's map |
| RemakeLevels.ReadInto | assignment/sokoban_remake/src/Sokoban.cpp:180-206 | reading a char keeps the map's shape |
| RemakeLevels.ReadUpToFilled | assignment/sokoban_remake/src/Sokoban.cpp:180-206 | after reading up to (row, col), every cell before it holds its cleared tile |
| RemakeLevels.ReadUpToStart | assignment/sokoban_remake/src/Sokoban.cpp:187-190 | after reading up to (row, col), the start is the last player tile read so far |
| RemakeLevels.ReadUpToTally | assignment/sokoban_remake/src/Sokoban.cpp:192-204 | after reading up to (row, col), the tally counts the tiles read so far |
| RemakeLevels.ReadAllMap | assignment/sokoban_remake/src/Sokoban.cpp:180-206 | after the whole level, the map is the cleared level's map |
| RemakeLevels.ReadAllStart | assignment/sokoban_remake/src/Sokoban.cpp:187-190 | after the whole level, the start is the level's last player tile |
| RemakeLevels.ReadAllTally | assignment/sokoban_remake/src/Sokoban.cpp:192-204 | after the whole level, the tally counts the whole level |
| LfsrSpec.Bits | assignment/ps1b/FibLFSR.cpp:9-20 | the register as len bits, most significant first |
| LfsrSpec.Next | assignment/ps1a/FibLFSR.cpp:37-51 | one step keeps the register's length |
| LfsrSpec.Outputs | assignment/ps1a/FibLFSR.cpp:28-35 | k steps give k output bits |
| LfsrSpec.GeneratedBound | assignment/ps1a/FibLFSR.cpp:28-35 | the number made of k output bits is below 2^k |
| LfsrSpec.BitsOfValue | assignment/ps1b/FibLFSR.cpp:46-55 | packing bits into a number and unpacking them gives the bits back |
| LfsrSpec.ValueOfBits | assignment/ps1b/FibLFSR.cpp:46-55 | unpacking len bits and repacking them gives the number modulo 2^len |
| LfsrSpec.ShiftIn | assignment/ps1b/FibLFSR.cpp:31-44 | shifting left, adding the bit and masking drops the top bit and appends the new bit |
| LfsrSpec.GeneratedStep | assignment/ps1a/FibLFSR.cpp:28-35 | generate doubles its number and adds the next feedback bit each step |
| LfsrSpec.SeedBits | assignment/ps1a/FibLFSR.cpp:16-26 | bit i is set exactly when seed char i is '1' |
| LfsrSpec.BitString | assignment/ps1a/FibLFSR.cpp:53 | the register printed as '0'/'1' chars |
| LfsrSpec.SeedRoundTrip | assignment/ps1a/FibLFSR.cpp:53-59 | printing a register made from a binary seed gives the seed back |
| LfsrSpec.NumNextBits | assignment/ps1b/FibLFSR.cpp:31-44 | the integer step computes the same feedback bit and next register as the bit-level step |
| LfsrSpec.NumIterateBits | assignment/ps1b/FibLFSR.cpp:22-29 | k integer steps agree with k bit-level steps |
| LfsrSpec.Iterate16Bits | assignment/ps1b/FibLFSR.cpp:7 | the 16-bit evaluator with taps 15, 13, 12, 10 agrees with the bit-level register |
| LfsrSpec.FirstFixtureSteps | assignment/ps1a/test.cpp:18-27 | the eight steps from 1011011000110110 return 0 0 0 1 1 0 0 1 |
| LfsrSpec.StepVector | assignment/ps1b/test.cpp:21-30 | the eight output bits from 1011011000110110 |
| LfsrSpec.GenerateVector | assignment/ps1a/test.cpp:30-32 | generate(9) from 1011011000110110 returns 51 |
| LfsrSpec.PrintSeedVector | assignment/ps1a/test.cpp:37-42 | printing a fresh register gives its seed |
| LfsrSpec.RegisterVector | assignment/ps1a/test.cpp:59-63 | nine steps from 0110110001101100 reach 1101100001100110, whose value is 55398 |
| LfsrSpec.PrintVector | assignment/ps1a/test.cpp:47-55 | after generate(9) the register prints as 1101100001100110 |
| LfsrSpec.OutputsAt | assignment/ps1a/FibLFSR.cpp:28-35 | output bit i is the feedback of the register after i steps |
| FibLfsrBitset.FibLFSR.FromBits | assignment/ps1a/FibLFSR.cpp:9-26 | a register holding the given sixteen bits |
| FibLfsrBitset.FibLFSR.Create | assignment/ps1a/FibLFSR.cpp:9-26 | refuses a seed of the wrong length, then one with a non-binary char, each with its message; otherwise holds the seed's bits |
| FibLfsrBitset.FibLFSR.Step | assignment/ps1a/FibLFSR.cpp:37-51 | returns the tap xor and shifts it in |
| FibLfsrBitset.FibLFSR.Generate | assignment/ps1a/FibLFSR.cpp:28-35 | returns the k output bits as a number below 2^k, and the register has advanced k steps |
| FibLfsrBitset.FibLFSR.GetLfsrBinaryString | assignment/ps1a/FibLFSR.cpp:53 | the register as a binary string, char i being '1' exactly when bit i is set |
| FibLfsrBitset.FreshPrintsSeed | assignment/ps1a/FibLFSR.cpp:55-59 | printing a register made from a seed gives the seed |
| FibLfsrInt.FibLFSR.constructor | assignment/ps1b/FibLFSR.cpp:9-20 | packs the seed into an int of |seed| bits, the first char most significant |
| FibLfsrInt.FibLFSR.Step | assignment/ps1b/FibLFSR.cpp:31-44 | returns the feedback bit and advances the register, as the bit-level specification does |
| FibLfsrInt.FibLFSR.Generate | assignment/ps1b/FibLFSR.cpp:22-29 | returns the k output bits as a number below 2^k, and the register has advanced k steps |
| FibLfsrInt.FibLFSR.GetLfsr | assignment/ps1b/FibLFSR.cpp:46 | the register's number, below 2^len |
| FibLfsrInt.FibLFSR.GetLfsrBinaryString | assignment/ps1b/FibLFSR.cpp:48-55 | the register printed bit by bit, most significant first |
| FibLfsrInt.PackSeed | assignment/ps1b/FibLFSR.cpp:11-13 | the packing loop computes the binary value of the seed |
| FibLfsrInt.AllOnes | assignment/ps1b/FibLFSR.cpp:16-19 | the mask loop computes 2^len − 1 |
| FibLfsrInt.TapBits | assignment/ps1b/FibLFSR.cpp:31-40 | the tap loop computes the xor of the tapped bits |
| FibLfsrInt.StepResult | assignment/ps1b/FibLFSR.cpp:31-44 | the integer step agrees with the bit-level step |
| PhotoMagic.XorPixelTwice | assignment/ps1b/PhotoMagic.cpp:8-20 | xoring twice with the same keys restores the pixel, and a pixel changes unless all keys are 0 |
| PhotoMagic.EncryptTwice | assignment/ps1b/PhotoMagic.cpp:13-15 | encrypting twice from the same register state restores the pixel |
| PhotoMagic.PixelState | assignment/ps1b/PhotoMagic.cpp:13-15 | the register before pixel n is the state after 24 * n steps |
| PhotoMagic.Encrypted | assignment/ps1b/PhotoMagic.cpp:8-20 | the encrypted image: pixel i xored with the keys of the register after 24 * i steps |
| PhotoMagic.TransformPixel | assignment/ps1b/PhotoMagic.cpp:13-16 | one pixel is xored with three generate(8) keys, and the register advances 24 steps |
| PhotoMagic.TransformRow | assignment/ps1b/PhotoMagic.cpp:10-19 | one row of pixels is encrypted in order |
| PhotoMagic.TransformRows | assignment/ps1b/PhotoMagic.cpp:9-20 | all rows are encrypted in row-major order |
| PhotoMagic.Transform | assignment/ps1b/PhotoMagic.cpp:8-20 | the image becomes its encryption, and the register advances 24 steps per pixel |
| PhotoMagic.EncryptedTwice | assignment/ps1b/PhotoMagic.cpp:8-20 | encrypting twice from the same starting register restores the image |
| PhotoMagic.TransformTwice | assignment/ps1b/test.cpp:82-117 | transforming twice with fresh registers from the same seed restores every pixel |
| PasswordSeed.FoldBelow23 | assignment/ps1b/PhotoMagic.cpp:26-30 | the fold of a password fits in 23 bits |
| PasswordSeed.MasksDisjoint | assignment/ps1b/PhotoMagic.cpp:35-40 | the masks for bit i and bit i + 16 have no bit in common |
| PasswordSeed.SeedCharMeaning | assignment/ps1b/PhotoMagic.cpp:35-40 | seed char i is ClearChar: '1' exactly when bits i and i + 16 of the fold are both clear |
| PasswordSeed.SeedCharOne | assignment/ps1b/PhotoMagic.cpp:35-40 | a '1' means both bits are clear |
| PasswordSeed.FoldPassword | assignment/ps1b/PhotoMagic.cpp:26-30 | the fold loop computes the xor of each byte shifted by its index mod 16, and the result fits in 23 bits |
| PasswordSeed.ConvertPasswordToSeed | assignment/ps1b/PhotoMagic.cpp:22-43 | sixteen binary chars, char i being ClearChar of the password's fold |
| PasswordSeed.SeedStep | assignment/ps1b/PhotoMagic.cpp:35-40 | appending the next seed char keeps every char equal to ClearChar |
| PasswordSeed.EmptyPasswordSeed | assignment/ps1b/PhotoMagic.cpp:22-43 | an empty password's seed is sixteen '1's |
| Counting.Rounds | assignment/ps6/RandWriter.cpp:52 | the size_t difference L − k: the true difference when L >= k, and 2^64 − (k − L) when L < k |
| Counting.MapSumUpdate | assignment/ps6/SymbolTable.hpp:76-83 | updating one entry changes the sum of a map by the difference |
| Counting.MapSumAtLeast | assignment/ps6/SymbolTable.hpp:91-102 | with non-negative entries, each entry is at most the sum |
| Counting.SumThroughAll | assignment/ps6/FrequencyStore.cpp:25-28 | summing the counts through an injective char map over all indices gives the sum of the counts |
| Counting.DrawIndex | assignment/ps6/RandWriter.cpp:83-93 | the random draw is some index in [1, total], or 0 when the total is not positive |
| FrequencyStores.TotalFrequency | assignment/ps6/FrequencyStore.cpp:15 | the total is the sum of the counts |
| FrequencyStores.IncrementFrequency | assignment/ps6/FrequencyStore.cpp:17-23 | a known char adds one to its own count and to the total; an unknown char changes nothing |
| FrequencyStores.FrequencyOf | assignment/ps6/FrequencyStore.cpp:25-28 | the count of a known char, 0 for an unknown one, never above the total |
| FrequencyStores.FrequencyAt | assignment/ps6/FrequencyStore.cpp:30-32 | the count at an index, or out_of_range outside the counts |
| FrequencyStores.Empty | assignment/ps6/FrequencyStore.cpp:8 | a store with no chars and a total of 0 |
| FrequencyStores.NewStore | assignment/ps6/FrequencyStore.cpp:10-13 | one zero count per char of the map, and a total of 0 |
| FrequencyStores.IncrementOnlyItself | assignment/ps6/FrequencyStore.cpp:17-28 | incrementing a known char raises the total and that char's frequency by one and no other char's |
| FrequencyStores.TotalByChar | assignment/ps6/FrequencyStore.cpp:15-28 | the total is the sum over the chars of their frequencies |
| SymbolTables.ListEntries | assignment/ps6/SymbolTable.hpp:115-124 | the map's entries in some order, each key once |
| SymbolTables.CountWithinTotal | assignment/ps6/SymbolTable.hpp:85-102 | a pair's count is between 0 and its symbol's total |
| SymbolTables.IncrementConsistent | assignment/ps6/SymbolTable.hpp:76-83 | an increment keeps every symbol's total equal to the sum of its row |
| SymbolTables.SymbolTable.constructor | assignment/ps6/SymbolTable.hpp:68-73 | both maps start empty |
| SymbolTables.SymbolTable.Row | assignment/ps6/SymbolTable.hpp:104-113 | the row of a symbol, empty when it is unknown, with positive counts |
| SymbolTables.SymbolTable.FrequencyOf | assignment/ps6/SymbolTable.hpp:85-89 | the symbol's total is the sum of its row, and 0 exactly when the symbol is unknown |
| SymbolTables.SymbolTable.FrequencyOfPair | assignment/ps6/SymbolTable.hpp:91-102 | a pair's count: 0 when absent, positive when present, at most the symbol's total |
| SymbolTables.SymbolTable.FrequencyMap | assignment/ps6/SymbolTable.hpp:104-107 | the totals map holds exactly the symbols with a positive total, with their totals |
| SymbolTables.SymbolTable.FrequencyMapOf | assignment/ps6/SymbolTable.hpp:109-113 | an unknown symbol throws out_of_range; otherwise the row, whose counts are the pair counts and sum to the total |
| SymbolTables.SymbolTable.Increment | assignment/ps6/SymbolTable.hpp:76-83 | raises the symbol's total and the pair's count by one and changes nothing else |
| SymbolTables.SymbolTable.Traverse | assignment/ps6/SymbolTable.hpp:115-124 | reports every symbol once, each with its total and its row |
| SymbolTables.PositiveSum | assignment/ps6/SymbolTable.hpp:85-89 | a map of positive counts sums to 0 exactly when it is empty |
| SymbolTables.TotalIsSumOfPairs | assignment/ps6/SymbolTable.hpp:85-102 | a symbol's total is the sum of its pair counts |
| RandWriters.CharIndexShape | assignment/ps6/RandWriter.cpp:9-15 | the char map indexes exactly the text's chars, one to one, with indices 0 to n − 1 |
| RandWriters.CharIndexOrder | assignment/ps6/RandWriter.cpp:9-15 | chars get their indices in order of first appearance |
| RandWriters.IndexChars | assignment/ps6/RandWriter.cpp:9-15 | the indexing loop builds the char map |
| RandWriters.Circular | assignment/ps6/RandWriter.cpp:17 | the circular text is the text followed by its first k chars |
| RandWriters.CircularChars | assignment/ps6/RandWriter.cpp:17 | the circular text has the same chars as the text |
| RandWriters.Transitions | assignment/ps6/RandWriter.cpp:18 | with k at most the text length, one transition per char of the text |
| RandWriters.PairAtMostKgram | assignment/ps6/RandWriter.cpp:34-46 | a k-gram is followed by a given char no more often than it occurs |
| RandWriters.NextKgramSeen | assignment/ps6/RandWriter.cpp:48-59 | sliding a seen k-gram by a char that follows it gives another seen k-gram, so generation can go on |
| RandWriters.CountTransition | assignment/ps6/RandWriter.cpp:18-29 | one loop step counts the window at i and its next char |
| RandWriters.RandWriter.Create | assignment/ps6/RandWriter.cpp:8-30 | refuses k above twice the text length with out_of_range and checks nothing else; otherwise the table counts every k-gram and transition of the circular text, |text| of them for k ≤ |text| and 2|text| − k above |
| RandWriters.RandWriter.OrderAboveLength | assignment/ps6/RandWriter.cpp:8-30 | "abc" with order 4 is accepted, with two transitions counted, although the order-check test expects invalid_argument |
| RandWriters.RandWriter.CreateChecked | assignment/ps6/RandWriter.cpp:8-30 | the corrected constructor: invalid_argument exactly when k exceeds the text length; otherwise the table counts |text| transitions |
| RandWriters.RandWriter.CheckKgram | assignment/ps6/RandWriter.cpp:61-65 | accepts exactly the k-grams of length k |
| RandWriters.RandWriter.Freq | assignment/ps6/RandWriter.cpp:34-39 | the number of times the k-gram occurs in the circular text, or invalid_argument for a wrong length |
| RandWriters.RandWriter.FreqOf | assignment/ps6/RandWriter.cpp:41-46 | the number of times the k-gram is followed by c, or invalid_argument for a wrong length |
| RandWriters.RandWriter.FreqSumsOverChars | assignment/ps6/RandWriter.cpp:34-46 | a k-gram's frequency is the sum of its follower counts |
| RandWriters.RandWriter.KRand | assignment/ps6/RandWriter.cpp:67-81 | fails exactly for an unseen k-gram; otherwise returns a char that follows it in the text |
| RandWriters.RandWriter.Generate | assignment/ps6/RandWriter.cpp:48-59 | output of k + (L − k as size_t) chars that starts with the k-gram, each window followed in the text by the next char; it succeeds for a seen k-gram |
| RandWriters.StoreSumsOverChars | assignment/ps6/RandWriter.cpp:67-81 | the counts of a store sum to its k-gram's frequency |
| RandWriters.Pick | assignment/ps6/RandWriter.cpp:70-80 | the cumulative scan returns a char with a positive count |
| WordWriters.Tokenize | assignment/ps6/WordWriter.cpp:28-33 | the getline loop splits the text at every space, keeping empty tokens |
| WordWriters.SplitEmpty | assignment/ps6/WordWriter.cpp:28-33 | the split is empty exactly for the empty text |
| WordWriters.SplitSpaceFree | assignment/ps6/WordWriter.cpp:28-33 | no token contains a space |
| WordWriters.SplitSpaced | assignment/ps6/WordWriter.cpp:61-64 | splitting the generated "t1 t2 ... " output gives back the tokens |
| WordWriters.JoinInjective | assignment/ps6/WordWriter.cpp:8-19 | space-free token lists with the same joined key are equal |
| WordWriters.ToString | assignment/ps6/WordWriter.cpp:8-19 | throws for an empty list; otherwise joins the tokens with single spaces |
| WordWriters.WrappedShape | assignment/ps6/WordWriter.cpp:35-37 | the wrapped tokens are the tokens followed by k more, each repeating the one k earlier |
| WordWriters.Wrap | assignment/ps6/WordWriter.cpp:35-37 | the wrapping loop builds the wrapped tokens |
| WordWriters.NextKeySeen | assignment/ps6/WordWriter.cpp:50-59 | sliding a seen key by a token that follows it gives another seen key |
| WordWriters.PickToken | assignment/ps6/WordWriter.cpp:69-84 | the cumulative scan returns a token present in the row |
| WordWriters.CountWindow | assignment/ps6/WordWriter.cpp:40-47 | counts the window at i, or throws out_of_range for k = 0 |
| WordWriters.CountWindows | assignment/ps6/WordWriter.cpp:40-47 | the counting loop tallies every window and its next token, or throws for k = 0 |
| WordWriters.ProgressStep | assignment/ps6/WordWriter.cpp:52-59 | one more generated token keeps every window followed by its next token |
| WordWriters.WriteSpaced | assignment/ps6/WordWriter.cpp:61-64 | the output loop writes each token followed by a space |
| WordWriters.WordWriter.Create | assignment/ps6/WordWriter.cpp:21-48 | refuses k above the text length with invalid_argument, and k = 0 on a non-empty text with out_of_range; otherwise every window is counted |
| WordWriters.WordWriter.KeysAreWindows | assignment/ps6/WordWriter.cpp:40-47 | a key has a positive total exactly when it is a window of the wrapped tokens |
| WordWriters.WordWriter.PairsAreTransitions | assignment/ps6/WordWriter.cpp:40-47 | a key-token pair is counted exactly when the token follows that window |
| WordWriters.WordWriter.KRand | assignment/ps6/WordWriter.cpp:69-84 | fails exactly for an unseen key; otherwise returns a token that follows it |
| WordWriters.WordWriter.Generate | assignment/ps6/WordWriter.cpp:50-67 | the spaced output of the k-gram and (L − k as size_t) generated tokens, each window followed by its token; it never raises invalid_argument, fails only with out_of_range for a short k-gram, and succeeds whenever L − k is 0 |
| WordWriters.WordWriter.Extend | assignment/ps6/WordWriter.cpp:52-59 | one generation step extends the tokens along a seen transition |
| WordWriters.WordWriter.GenerateTokens | assignment/ps6/WordWriter.cpp:50-59 | the k-gram and generated tokens follow transitions of the text; it succeeds for a seen space-free k-gram, and whenever L − k is 0 |
| WordWriters.WordWriter.GenerateUnchecked | assignment/ps6/WordWriter.cpp:50-59 | with L = k a k-gram of a length other than k is written out and accepted, against the invalid_argument the header documents |
| WordWriters.WordWriter.GenerateChecked | assignment/ps6/WordWriter.hpp:21-32 | the corrected generate: invalid_argument exactly for a k-gram whose length is not k; otherwise the spaced output of GenerateTokens, failing only with out_of_range |
| DirectionKeys.ToInt | assignment/ps0/main.cpp:36-38 | the code of an orientation is below ORIENTAION_COUNT |
| DirectionKeys.FromInt | assignment/ps0/main.cpp:44-45 | the orientation whose code is i |
| DirectionKeys.FromToInt | assignment/ps0/main.cpp:36-45 | codes name orientations one to one |
| DirectionKeys.OppositePairs | assignment/ps0/main.cpp:43-46 | xor 1 pairs up with down and left with right |
| DirectionKeys.OppositeInvolutive | assignment/ps0/main.cpp:43-46 | the opposite of the opposite is the direction, and no direction is its own opposite |
| DirectionKeys.Released | assignment/ps0/main.cpp:147-148 | all key and movement flags start false |
| DirectionKeys.ReleasedSteady | assignment/ps0/main.cpp:147-148 | the start satisfies the key/movement invariant |
| DirectionKeys.PressKeepsSteady | assignment/ps0/main.cpp:92-101 | pressing a key keeps the invariant: a direction moves only while held, never together with its opposite, and one direction moves while either key of its axis is held |
| DirectionKeys.PressedSlots | assignment/ps0/main.cpp:92-101 | pressing d holds d, and moves d unless the opposite is held; nothing else changes |
| DirectionKeys.ReleaseKeepsSteady | assignment/ps0/main.cpp:107-117 | releasing a key keeps the invariant |
| DirectionKeys.ReleasedSlots | assignment/ps0/main.cpp:107-117 | releasing d stops d, and moves the opposite if its key is held |
| DirectionKeys.HandOver | assignment/ps0/main.cpp:92-117 | pressing the opposite while holding d keeps moving d; releasing d then turns round |
| DirectionKeys.AxisStep | assignment/ps0/main.cpp:124-131 | the later flag of an axis wins: +1 when it is set, −1 when only the earlier is set |
| DirectionKeys.SteadySteps | assignment/ps0/main.cpp:123-136 | in a steady state each axis step is the one direction moving along it |
| DirectionKeys.ControllableSprite.constructor | assignment/ps0/main.cpp:147-148 | both flag arrays start all false |
| DirectionKeys.ControllableSprite.EnableDirection | assignment/ps0/main.cpp:92-101 | the flags become Press's, and the invariant holds |
| DirectionKeys.ControllableSprite.DisableDirection | assignment/ps0/main.cpp:107-117 | the flags become Release's, and the invariant holds |
| DirectionKeys.ControllableSprite.Heading | assignment/ps0/main.cpp:123-136 | x and y are the axis steps, and the sprite moves exactly when some direction is moving |
| FindModes.OccurrencesBound | playground/find-mode.cpp:16-17 | no value occurs more often than the array is long |
| FindModes.CountStep | playground/find-mode.cpp:6-14 | counting one more value raises its entry by one, or adds it with count 1 |
| FindModes.CountValues | playground/find-mode.cpp:5-14 | the map holds exactly the array's values, each with its number of occurrences |
| FindModes.Extremes | playground/find-mode.cpp:16-21 | the scan in any order bounds every frequency between its minimum and maximum, which start at the length and 0 |
| FindModes.ExtremesDiffer | playground/find-mode.cpp:23-25 | when the extremes differ, not all values occur equally often, and the modes are those with the maximum count |
| FindModes.CollectModes | playground/find-mode.cpp:27-33 | collects each value with the maximum frequency once |
| FindModes.FindMode | playground/find-mode.cpp:4-36 | null exactly when every value occurs equally often (including the empty array); otherwise exactly the most frequent values, each once |
| FindModes.ExampleModes | playground/find-mode.cpp:39-47 | the modes of {1, 2, 3, 3, 4, 4} are 3 and 4 |

## Left out

- SFML drawing, textures, sounds, fonts, windows and event loops are not modelled. Neither are the `main` functions of ps0, ps1b and the Sokoban games, or the ps3b victory notice and `printMatrix`. They only present results.
- File and stream I/O is not modelled.
  - PhotoMagic reads and writes images; its image is an array of pixels.
  - ps3b `operator>>` reads from a file; it becomes `Sokobans.Sokoban.Load` over parsed tiles.
  - The remake reader and writer work on a string of level characters.
- Sokobans.Sokoban.Load: takes the level as height × width parsed tiles. Reading the two dimensions from the stream is not modelled, and neither is the out_of_range that `line.at(col)` throws on a short line.
- SokobanRemakes.ReadLevel: requires at least height × width characters and dimensions below 2^32. The reader runs out of input or overflows otherwise.
- SokobanRemakes.Sokoban.Load: requires at least height × width characters and dimensions below 2^32. The reader runs out of input or overflows otherwise.
- SokobanRemakes.Sokoban.MovePlayer: requires the next cell to be on the board, unless the game is won. `tileAt` does not check its coordinate, so a step off the board is undefined behaviour. `SokobanRemakes.MoveStaysEnclosed` proves that a level walled on its border always meets this.
- The bodies of ps3b `getTileChar` and `setTileChar` are not part of this model. `Sokobans.TileCharAt` assumes they check the linear index the way `getTile` and `setTile` do.
- FibLfsrInt.FibLFSR.constructor: requires a non-empty seed of '0' and '1' characters. The ps1b constructor validates nothing: another character ORs in its difference from '0', and an empty seed makes `len - 1` wrap. Every call site passes sixteen binary characters.
- FibLfsrInt.FibLFSR.Step: the register and mask are unbounded naturals. ps1b's `int` overflows for registers longer than 31 bits.
- FibLfsrInt.FibLFSR.Generate: the result is an unbounded natural. The C++ `int ans` overflows for k ≥ 32.
- FibLfsrBitset.FibLFSR.Generate: the result is an unbounded natural. The C++ `int ans` overflows for k ≥ 32.
- PhotoMagic.TransformTwice: requires a non-empty binary seed, for the same reason as the ps1b constructor.
- ElapsedTimes.ElapsedTime.Update: requires the new time to fit in a signed 64-bit integer, since overflow there is undefined behaviour.
- Sokobans.Sokoban.Update: requires the same of the advanced clock while the game is not won.
- Counting.DrawIndex: the random draw (`getRandomNumber` with a Mersenne Twister seeded from the clock) is an arbitrary index in [1, total]. Everything proved about its callers holds for every index drawn.
- The iteration order of `std::unordered_map` is unspecified, so the model leaves it open: each loop takes the entries in any order. This covers `SymbolTables.ListEntries`, `RandWriters.Pick`, `WordWriters.PickToken`, `FindModes.Extremes` and `FindModes.CollectModes`. Their contracts hold for every order, so the output of `kRand` and of `find_mode` is pinned down only up to that order.
- NeedlemanWunschEDistance.NeedlemanWunschEDistance.Alignment: requires that `optDistance` has run. Called before it, `alignment` dereferences the null matrix, which is undefined behaviour; the ps5 `main` always calls `optDistance` first.
- EDistanceClass.EDistance.Alignment: requires that `optDistance` has run, for the same reason: the matrix is null until then.
- HirshbergEDistance.HirshbergEDistance.Alignment: requires that `optDistance` has run. Before it the arrow path is empty, and `alignment` reads past its end.
- FindModes.FindMode: takes an array, whose length is never negative. With a negative `length` `find_mode` skips its loops and returns null.
- Text fixtures of the ps6 tests on literal texts ("gagggagaggcgagaaa") are not modelled. Their expected counts follow from `RandWriters.RandWriter.Freq` and `RandWriters.RandWriter.FreqOf`.
- The floating-point position update of ps0 `update` is not modelled, only the direction it picks (`DirectionKeys.ControllableSprite.Heading`).
- Destructors, copy constructors and the `shared_ptr` sprites of the tile grid are not modelled. A tile is a value, and a null tile is `None`.
- The ps5 `EDistance` Hirschberg fill is a stub that only allocates, and is modelled as one (`EDistanceClass.EDistance.PopulateMatrixHirschberg`).

## Findings

| source | as written | input that shows it | evidently intended | confidence | as-written member | corrected member |
|---|---|---|---|---|---|---|
| assignment/ps5/HirshbergEDistance.cpp:144 | the split scan loops `q < yLength`, so the split q = \|Y\| is never tried | X = aaabbb, Y = aaa: the split is q = 2 and the alignment costs 7, while the edit distance is 6 | scan `q <= yLength`, so the halves' costs add up to the optimal cost | not executed | HirshbergEDistance.AsWrittenMissesLastColumn | HirshbergEDistance.HirschbergIsOptimal |
| assignment/sokoban_remake/src/Sokoban.cpp:143-159 | `testBoxNextCoord` treats a box on storage as a free target, and `moveBox` overwrites it | a box pushed against a box that stands on a storage: the pushed box replaces it, and one box disappears | a box on storage blocks the push, as a box does | not executed | SokobanRemakes.PushLosesBox | SokobanRemakes.MoveKeepsBoxes |
| assignment/ps6/RandWriter.cpp:8-30 | the constructor never compares k with the text length; only k > 2\|text\| fails, with out_of_range from `at(i + k)` | "abc" with k = 4: accepted, with 2 transitions counted, while the order-check test (assignment/ps6/test.cpp:84-86) expects invalid_argument | refuse k > \|text\| with invalid_argument, as the WordWriter constructor does | not executed | RandWriters.RandWriter.OrderAboveLength | RandWriters.RandWriter.CreateChecked |
| assignment/ps6/WordWriter.cpp:50-59 | `generate` never compares the k-gram's length with k, though WordWriter.hpp:29-30 documents invalid_argument for it | order 2, L = 2 and a k-gram of one token: the token is written out and no exception is raised | refuse a k-gram whose length is not k with invalid_argument, as `RandWriter::generate` does through `checkKgram` | not executed | WordWriters.WordWriter.GenerateUnchecked | WordWriters.WordWriter.GenerateChecked |
| assignment/ps5/EDistance.cpp:72 | the traceback stops once `i` or `j` reaches the last row or column, so trailing gaps are never printed | X = "ab", Y = "a": prints "a a 0" only, at cost 0; the optimal alignment also prints "b - 2" | walk to the corner, as `NeedlemanWunschEDistance::alignment` does | not executed | EDistanceClass.TrailingGapDropped | NeedlemanWunschEDistance.NeedlemanWunschEDistance.Alignment |
