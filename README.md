# 2048 engine in Dafny

A model of the rules engine of a 4 x 4 "2048" sliding-tile puzzle. The
engine has two classes:

- `Matrix` is the board: a grid of integers where 0 is an empty cell. It
  offers:
  - cell, row and column access;
  - a deep clone;
  - the row-major list of empty cells;
  - a cell-wise change test.
- `GameCore` owns the board and plays the game:
  - `move(direction)` reads each row or column, reversed for Down and
    Right;
  - each line goes through `merge`, which compacts out the zeros, makes one
    left-to-right merging pass, and compacts again;
  - the line is written back, its merge locations are appended to
    `changedLocations`, and the current and best scores are updated;
  - `move` then sets `isChange` by comparing with a snapshot, and sets
    `isOver` via `checkOver`;
  - `generateNumber` puts a 2 or a 4 into an empty cell;
  - `reset` starts a fresh board.

The project has four modules:

- `Types` (`types.dfy`): `Location` and `MoveDirection`.
- `Lines` (`lines.dfy`): `removeZero` and `merge` as functions on one line
  (`Compact`, `SinglePass`, `Merge`), with their properties.
- `Grid` (`grid.dfy`): cell-level functions on a `seq<seq<int>>` board, and
  the class `Matrix`, whose methods are proved against them.
- `Engine` (`engine.dfy`): the whole move as functions of the board, the
  terminal test, and the class `GameCore`.

Each `GameCore` method is proved against these functions:

- `RemoveZero` and `Merge` are loops over the fields `mergeArray` and
  `zeroFilterArray`;
- the four `Move*` methods are loops over the lines, proved against
  `Scan`, the move computed line by line;
- `ScanSpec` relates `Scan` to the move described on the original board:
  `MovedGrid`, `MoveLocations` and `MoveValues`.

The model follows the code as written, including its quirks:

- The merge indices that `merge` returns are positions in the line *before*
  the second compaction. `[2, 2, 2, 2]` reports `[0, 2]`, while the merged
  tiles end at 0 and 1 (`Lines.MergeFourEqual`). `Lines.MergeFinalPositions`
  says where each merged tile really ends.
- `checkOver` tests the cached `emptyLocations` that `generateNumber` last
  filled. It does not rescan the board. So once a spawn has filled the last
  cell, a merging move can set `isOver` although it opened a cell and
  another direction still changes the board (`Engine.EarlyOver`). This
  happens when the board it leaves has no equal neighbours, empty cells
  included; a move that frees two adjacent cells does not end the game
  (`Engine.NoEarlyOver`).
- `move` and `generateNumber` run even when `isOver` is already set.
- `currentScore` is the largest value a merge has produced, not a sum.
- `bestScore` is raised to `currentScore` only when a merge happens.
- The code has no win threshold, no `isSuccess` flag and no per-tile slide
  list.
- `generateNumber` also refreshes the `emptyLocations` cache: it stores a
  fresh scan of the empty cells, with the spawned cell removed.

The two `Math.random()` draws of `generateNumber` are the parameters `pick`
and `kind`, each in `[0, 1)`:

- the cell is `Math.floor(pick * n)` of the `n` empty cells (`PickIndex`);
- the tile is 4 exactly when `Math.ceil(kind * 10) === 1`, that is when
  `0 < kind <= 0.1`, and 2 otherwise (`SpawnValue`).

`Matrix.GetNumber` and `Matrix.GetRowNumbers` are plain reads of the board,
so they have no contract of their own. What they return is stated where
they are used: `SetNumber`, `SetRowNumbers` and the `GameCore` loops.

## Model

| member | source | states |
|---|---|---|
| Grid.ZeroGrid | assets/Script/Core/Matrix.ts:21-27 | the fresh grid has `rows` rows of `cols` cells, every cell 0 |
| Grid.Col | assets/Script/Core/Matrix.ts:45-47 | a column read has one entry per row, and entry `r` is cell `(r, c)` |
| Grid.SetCell | assets/Script/Core/Matrix.ts:29-31 | writing a cell keeps the shape, puts `v` at the location, and leaves every other cell as it was |
| Grid.SetCol | assets/Script/Core/Matrix.ts:49-51 | writing a column keeps the shape, makes that column read back as `xs`, and leaves all other columns unchanged |
| Grid.EmptyLocationsSpec | assets/Script/Core/Matrix.ts:61-71 | a location is listed iff it is on the board and holds 0; the list is strictly increasing in row-major order, so no cell is listed twice |
| Grid.SpawnRescan | assets/Script/Core/GameCore.ts:152-159 | the picked empty location is on the board; after a non-zero tile is written there, rescanning the board gives the cached list with that entry spliced out |
| Grid.DiffersIff | assets/Script/Core/Matrix.ts:73-81 | for grids of one shape, "some cell differs" holds iff the grids are unequal, so a grid never differs from its copy |
| Grid.Matrix.Fill | assets/Script/Core/Matrix.ts:8-12 | every element of the array is set to `num` |
| Grid.Matrix.constructor | assets/Script/Core/Matrix.ts:14-19 | the new matrix has the given dimensions and all cells 0 |
| Grid.Matrix.Init | assets/Script/Core/Matrix.ts:21-27 | `row` rows of `col` zeros are pushed after whatever `matrix` already holds |
| Grid.Matrix.GetNumber | assets/Script/Core/Matrix.ts:33-35 | a plain read of cell `loc`, with no contract of its own; what it returns is stated by `SetNumber`, `GetColNumbers` and `CheckOver` |
| Grid.Matrix.SetNumber | assets/Script/Core/Matrix.ts:29-31 | the board becomes `SetCell` of the old board, so `GetNumber(loc)` reads `num` and no other cell changes |
| Grid.Matrix.GetRowNumbers | assets/Script/Core/Matrix.ts:37-39 | a plain read of row `rowIdx`, with no contract of its own; what it returns is stated by `SetRowNumbers` and the `MoveLeft` and `MoveRight` loops |
| Grid.Matrix.SetRowNumbers | assets/Script/Core/Matrix.ts:41-43 | row `rowIdx` becomes `rows`; every other row is unchanged |
| Grid.Matrix.GetColNumbers | assets/Script/Core/Matrix.ts:45-47 | the column read has `row` entries, and entry `i` is `GetNumber((i, colIdx))` |
| Grid.Matrix.SetColNumbers | assets/Script/Core/Matrix.ts:49-51 | the board becomes `SetCol` of the old board: column `colIdx` reads `cols`, other columns unchanged |
| Grid.Matrix.Clone | assets/Script/Core/Matrix.ts:53-59 | a newly allocated matrix with the same dimensions and the same contents |
| Grid.Matrix.GetEmptyLocations | assets/Script/Core/Matrix.ts:61-71 | the nested loop returns exactly `EmptyLocations` of the board |
| Grid.Matrix.IsChange | assets/Script/Core/Matrix.ts:73-81 | the result is true iff some cell differs from the other matrix |
| Lines.CompactSpec | assets/Script/Core/GameCore.ts:42-53 | `removeZero`'s line has length `max(n, #non-zeros)` and starts with the non-zero entries in their order; it is zero after them and packed; it keeps the non-zero entries and the sum |
| Lines.CompactSnoc | assets/Script/Core/GameCore.ts:47-51 | one iteration of `removeZero`'s loop: a zero changes nothing; a non-zero entry goes into the next free slot, or is appended once the line is full |
| Lines.CompactIdempotent | assets/Script/Core/GameCore.ts:42-53 | compacting an already compacted line changes nothing |
| Lines.SinglePassAt | assets/Script/Core/GameCore.ts:59-75 | at each recorded index `i`: `i + 1` is on the line and both entries are equal and non-zero; after the pass `i` holds the double and `i + 1` holds 0; the recorded value is that double; consecutive indices are at least 2 apart |
| Lines.SinglePassFrame | assets/Script/Core/GameCore.ts:59-75 | the pass changes only positions that are a merge index or just after one |
| Lines.SinglePassGreedy | assets/Script/Core/GameCore.ts:59-75 | every equal non-zero neighbour pair of the input is covered by a merge; the left-to-right scan misses none |
| Lines.SinglePassConserves | assets/Script/Core/GameCore.ts:59-75 | the pass keeps the sum of the line, and the number of tiles drops by one per merge |
| Lines.SinglePassIdentity | assets/Script/Core/GameCore.ts:59-75 | a line without equal non-zero neighbours passes through unchanged, with no merges |
| Lines.SinglePassNoMergeIff | assets/Script/Core/GameCore.ts:59-75 | the pass records no merge iff the line has no equal non-zero neighbours |
| Lines.SinglePassFinalPosition | assets/Script/Core/GameCore.ts:59-77 | on a packed line, the `k`-th merged tile ends up at position `at[k] - k` once its zeros are removed |
| Lines.MergeConserves | assets/Script/Core/GameCore.ts:55-80 | for lines of at most `n` cells: the result has length `n` and is packed; it keeps the sum, and has exactly one tile fewer per returned index |
| Lines.MergeIndices | assets/Script/Core/GameCore.ts:56-77 | each returned index `i` points into the once-compacted line, where the entries at `i` and `i + 1` are equal and non-zero; the merged value is their sum; indices increase by at least 2 |
| Lines.MergeFinalPositions | assets/Script/Core/GameCore.ts:55-80 | the `k`-th merged value sits at position `changed[k] - k` of the final line, so the returned indices are not final positions |
| Lines.MergeNoMergeIff | assets/Script/Core/GameCore.ts:55-80 | `merge` returns no index iff the compacted line has no equal non-zero neighbours, and then the result is just the compacted line |
| Lines.MergeStuckLine | assets/Script/Core/GameCore.ts:55-80 | a full line without equal neighbours comes back unchanged, with no merges |
| Lines.MergeLineWithPair | assets/Script/Core/GameCore.ts:55-80 | a full line with an equal neighbour pair changes and reports a merge |
| Lines.MergeFourEqual | assets/Script/Core/GameCore.ts:55-80 | `[2, 2, 2, 2]` becomes `[4, 4, 0, 0]` with indices `[0, 2]`; no merge chains |
| Lines.MergeGapped | assets/Script/Core/GameCore.ts:55-80 | `[0, 2, 0, 2]` becomes `[4, 0, 0, 0]` with the single index `[0]` |
| Lines.MergeAlternating | assets/Script/Core/GameCore.ts:55-80 | `[2, 4, 2, 4]` comes back unchanged, with no merges |
| Lines.MergeHeadPair | assets/Script/Core/GameCore.ts:55-80 | `[2, 2, 8, 16]` becomes `[4, 8, 16, 0]` with the single index `[0]`: a merge in a full line frees its last cell |
| Lines.MergeTwoPairs | assets/Script/Core/GameCore.ts:55-80 | `[2, 2, 4, 4]` becomes `[4, 8, 0, 0]` with indices `[0, 2]`: two pairs merge separately and free two adjacent cells |
| Lines.MergeSlideOnly | assets/Script/Core/GameCore.ts:55-80 | `[0, 16, 8, 4]` only slides, to `[16, 8, 4, 0]`, with no merges |
| Lines.MaxWithBounds | assets/Script/Core/GameCore.ts:66-68 | the score after a run of merges is at least its start and at least every merged value, and it equals the start or one of those values |
| Lines.MaxWithAppend | assets/Script/Core/GameCore.ts:66-68 | raising the score over two runs of merges in turn is raising it over both together |
| Lines.ReverseReverse | assets/Script/Core/GameCore.ts:93-96 | reversing twice gives back the line, so Down and Right restore the orientation they read |
| Engine.MoveLineMapping | assets/Script/Core/GameCore.ts:82-116 | reading line `i` of the moved board the way the move reads it gives `merge` of the original line; Left and Up write back `merge(line)`, Right and Down `reverse(merge(reverse(line)))` |
| Engine.MoveConservesTiles | assets/Script/Core/GameCore.ts:55-116 | a move keeps the sum of the board, and the number of tiles drops by exactly the number of merge locations it appends |
| Engine.MoveLocationsInBounds | assets/Script/Core/GameCore.ts:86-113 | every merge location a move appends after any number of lines lies on the 4 x 4 board, for every direction, including the mirrored `len - idx - 1` of Down and Right |
| Engine.ScanSpec | assets/Script/Core/GameCore.ts:82-116 | after `k` lines: the board is the move of the original board; the location list is the old list plus the new locations; the current score is the old one raised by the merged values; the best score is raised to it iff some merge happened |
| Engine.MoveScores | assets/Script/Core/GameCore.ts:66-73 | over a move neither score decreases; the current score is at least every merged value; after a merge the best score is at least the current one, and `best >= current` is preserved |
| Engine.CalmIff | assets/Script/Core/GameCore.ts:173-180 | `checkOver`'s nested loop, row `r` against column `r` per outer step, finds no equal pair iff no cell equals its right neighbour and no cell equals the one below it |
| Engine.NoZerosIff | assets/Script/Core/GameCore.ts:148-149 | the freshly scanned empty list is empty iff no cell of the board holds 0 |
| Engine.StuckBoard | assets/Script/Core/GameCore.ts:170-183 | a full board with no equal neighbours is left unchanged by every direction |
| Engine.MovableBoard | assets/Script/Core/GameCore.ts:170-183 | on a full board with an equal neighbour pair, Left or Up changes the board |
| Engine.OverIffStuck | assets/Script/Core/GameCore.ts:170-183 | on a freshly scanned list, `checkOver` holds iff there is no empty cell and every direction leaves the board unchanged |
| Engine.EarlyOver | assets/Script/Core/GameCore.ts:141-183 | on a full board whose only equal pair is `2, 2` in row 0, the spawn cache is empty; Left frees cell (0, 3), yet `checkOver` on that cache reports the game over, a fresh scan would not, and Right still changes the board |
| Engine.NoEarlyOver | assets/Script/Core/GameCore.ts:170-180 | on a full board whose row 0 is `2, 2, 4, 4`, the spawn cache is empty, Left leaves row 0 as `4, 8, 0, 0`, and `checkOver` on that cache does not report the game over, because the two freed cells are equal neighbours |
| Engine.PickIndex | assets/Script/Core/GameCore.ts:151 | `Math.floor(x * n)` for a draw in `[0, 1)` is a valid index, with `idx <= x * n < idx + 1` |
| Engine.Ceil | assets/Script/Core/GameCore.ts:155 | `Math.ceil` returns the least integer not below its argument |
| Engine.SpawnValue | assets/Script/Core/GameCore.ts:155 | the new tile is 2 or 4, and it is 4 iff the draw is in `(0, 0.1]` |
| Engine.GameCore.constructor | assets/Script/Core/GameCore.ts:5-24 | two distinct fresh 4 x 4 zero matrices; empty scratch lines and caches; both flags false, both scores 0, no locations; so `Valid`, which also demands `0 <= currentScore <= bestScore`, holds |
| Engine.GameCore.RemoveZero | assets/Script/Core/GameCore.ts:42-53 | `zeroFilterArray` becomes `Compact(mergeArray, 4)`, and `mergeArray` is the same line |
| Engine.GameCore.Merge | assets/Script/Core/GameCore.ts:55-80 | the scratch lines hold `merge`'s final line and the returned indices are its merge indices; `currentScore` is raised by each merged value; `bestScore` is raised to it iff some merge happened; `currentScore` never decreases, and stays at most `bestScore` if it started so |
| Engine.GameCore.MoveUp | assets/Script/Core/GameCore.ts:82-89 | the board, locations and scores become `Scan` of the old state for Up over the 4 columns; `Valid`, with `0 <= currentScore <= bestScore`, is kept (so by all four moves) |
| Engine.GameCore.MoveDown | assets/Script/Core/GameCore.ts:91-98 | the same, for Down; each iteration is `DownLine` |
| Engine.GameCore.DownLine | assets/Script/Core/GameCore.ts:92-97 | one column reversed, merged, its locations mirrored and appended, and written back reversed again: one `LineStep` |
| Engine.GameCore.MoveLeft | assets/Script/Core/GameCore.ts:100-107 | the board, locations and scores become `Scan` of the old state for Left over the 4 rows |
| Engine.GameCore.MoveRight | assets/Script/Core/GameCore.ts:109-116 | the same, for Right, with rows reversed before and after the merge |
| Engine.GameCore.Move | assets/Script/Core/GameCore.ts:118-145 | the snapshot is the old board; the new state is `Scan` of the old one; `isChange` holds iff the board changed; `isOver` is latched when `checkOver` holds; the cached empty list is untouched |
| Engine.GameCore.Advance | assets/Script/Core/GameCore.ts:119-136 | a fresh snapshot equal to the old board, then the chosen direction's pass |
| Engine.GameCore.Settle | assets/Script/Core/GameCore.ts:138-144 | `isChange` is "board differs from the snapshot"; `isOver` becomes `old(isOver) or checkOver` |
| Engine.GameCore.GenerateNumber | assets/Script/Core/GameCore.ts:147-168 | with no empty cell: `-1` and `(-1, -1)`, board unchanged, cache empty; otherwise the picked cell was 0 and gets `SpawnValue(kind)`, no other cell changes, and the entry is spliced out of the cache; either way the cache is the board's empty list |
| Engine.GameCore.CheckOver | assets/Script/Core/GameCore.ts:170-183 | the result is false when the cached list is non-empty; otherwise true iff no adjacent pair is equal |
| Engine.GameCore.Reset | assets/Script/Core/GameCore.ts:185-189 | `isOver` false, `currentScore` 0, a fresh zero board; `bestScore`, the caches and `changedLocations` are not touched; `Valid` is kept, so `0 <= currentScore <= bestScore` |

## Left out

- `GameController.ts`, `ResourceManager.ts`, `GameResult.ts` and `NumberSprite.ts` are not part of this model. They hold input handling, rendering, asset loading and animation.
- The caller protocol is not modelled either: `GameController.ts` spawns only after a changing move and clears `changedLocations` itself.
- `Math.random`: its two draws are the parameters of `GenerateNumber`. The 90/10 odds of a 2 or a 4 are a matter of probability and are not stated.
- Array aliasing, modelled with value semantics:
  - `getRowNumbers` returns the live row, and `moveRight` reverses it in place before overwriting it;
  - after `moveLeft` or `moveRight`, the last row written back is the same array as `mergeArray` and `zeroFilterArray`;
  - the scratch lines are always reassigned before they are read, so the end state is the same.
- JavaScript numbers are doubles; the model uses unbounded integers. Tile values stay far below 2^53, where doubles are exact.
- The two random draws are exact reals. The double rounding of `pick * n` and `kind * 10` is not modelled, so at rare draws `Math.floor` or `Math.ceil` can land one step away from `PickIndex` or `SpawnValue`; both results are still a valid index and a 2 or a 4.
- Out-of-range access: `Matrix` indexes its arrays unchecked, and what JavaScript does with a bad index (`undefined`, or a `TypeError`) is not modelled. The `Matrix` methods require in-range indices; every caller in the core passes such indices.
- `MoveDirection` has four values here. The original `switch` would ignore any other value, which cannot occur in this model.
- The getters and setter of `GameCore` (`map`, `isChange`, `isOver`) are read and written as plain fields.
