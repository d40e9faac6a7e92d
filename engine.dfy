/** The engine of the 4 x 4 game: what a move does to the board, the merge
    locations and the scores, the terminal test, and the `GameCore` class
    that owns the board and is proved against these functions. */
module Engine {
  import opened Types
  import opened Lines
  import opened Grid

  /** The engine's fixed line lengths, `rowLen` and `colLen`. */
  const RowLen: nat := 4
  const ColLen: nat := 4

  ghost predicate IsBoard(g: seq<seq<int>>)
  {
    IsGrid(g, RowLen, ColLen)
  }

  predicate Horizontal(d: MoveDirection)
  {
    d.Left? || d.Right?
  }

  /** Line `i` as `move` hands it to `merge`: a column for Up and Down, a
      row for Left and Right, reversed for Down and Right so that index 0 is
      the wall the tiles are pushed against. */
  function LineOf(g: seq<seq<int>>, d: MoveDirection, i: nat): (l: seq<int>)
    requires IsBoard(g) && i < 4
    ensures |l| == 4
  {
    match d
    case Up => Col(g, i)
    case Down => Reverse(Col(g, i))
    case Left => g[i]
    case Right => Reverse(g[i])
  }

  /** What `move` writes back for line `i`: the merged line, reversed again
      for Down and Right. `merge` always pads to `RowLen`, also for columns. */
  function Out(g: seq<seq<int>>, d: MoveDirection, i: nat): (l: seq<int>)
    requires IsBoard(g) && i < 4
    ensures |l| == 4
  {
    MergeLength(LineOf(g, d, i), RowLen);
    var m := Merge(LineOf(g, d, i), RowLen).line;
    if d.Down? || d.Right? then Reverse(m) else m
  }

  /** The board after the first `k` lines of a move have been written back. */
  function MovedUpTo(g: seq<seq<int>>, d: MoveDirection, k: nat): (g': seq<seq<int>>)
    requires IsBoard(g) && k <= 4
    ensures IsBoard(g')
  {
    if Horizontal(d) then
      seq(4, r requires 0 <= r < 4 => if r < k then Out(g, d, r) else g[r])
    else
      seq(4, r requires 0 <= r < 4 => seq(4, c requires 0 <= c < 4 => if c < k then Out(g, d, c)[r] else g[r][c]))
  }

  /** The board after a move in direction `d`. */
  function MovedGrid(g: seq<seq<int>>, d: MoveDirection): (g': seq<seq<int>>)
    requires IsBoard(g)
    ensures IsBoard(g')
  {
    MovedUpTo(g, d, 4)
  }

  /** The location `move` records for merge index `idx` of line `i`:
      mirrored as `len - idx - 1` for Down and Right. */
  function LocOf(d: MoveDirection, i: int, idx: int): Location
  {
    match d
    case Up => Location(idx, i)
    case Down => Location(RowLen - idx - 1, i)
    case Left => Location(i, idx)
    case Right => Location(i, ColLen - idx - 1)
  }

  function LocsOf(d: MoveDirection, i: int, idxs: seq<nat>): (locs: seq<Location>)
    ensures |locs| == |idxs|
  {
    seq(|idxs|, j requires 0 <= j < |idxs| => LocOf(d, i, idxs[j]))
  }

  /** The merge locations the first `k` lines of a move append to
      `changedLocations`. */
  function MoveLocations(g: seq<seq<int>>, d: MoveDirection, k: nat): seq<Location>
    requires IsBoard(g) && k <= 4
  {
    if k == 0 then []
    else MoveLocations(g, d, k - 1) + LocsOf(d, k - 1, Merge(LineOf(g, d, k - 1), RowLen).changed)
  }

  /** The values the merges of the first `k` lines produced, in order. */
  function MoveValues(g: seq<seq<int>>, d: MoveDirection, k: nat): seq<int>
    requires IsBoard(g) && k <= 4
  {
    if k == 0 then [] else MoveValues(g, d, k - 1) + Merge(LineOf(g, d, k - 1), RowLen).values
  }

  /** No horizontally or vertically adjacent pair of cells holds equal
      values (empty cells included). */
  ghost predicate NoEqualAdjacent(g: seq<seq<int>>)
    requires IsBoard(g)
  {
    && (forall r, c :: 0 <= r < RowLen && 0 <= c < ColLen - 1 ==> RowPairDiffers(g, r, c))
    && (forall r, c :: 0 <= r < RowLen - 1 && 0 <= c < ColLen ==> ColPairDiffers(g, r, c))
  }

  /** Cells `(r, c)` and `(r, c + 1)` differ. */
  predicate RowPairDiffers(g: seq<seq<int>>, r: nat, c: nat)
    requires IsBoard(g) && r < 4 && c < 3
  {
    g[r][c] != g[r][c + 1]
  }

  /** Cells `(r, c)` and `(r + 1, c)` differ. */
  predicate ColPairDiffers(g: seq<seq<int>>, r: nat, c: nat)
    requires IsBoard(g) && r < 3 && c < 4
  {
    g[r][c] != g[r + 1][c]
  }

  /** `checkOver`: false when the cached empty list is non-empty, otherwise
      whether no adjacent pair is equal. */
  ghost predicate Over(cache: seq<Location>, g: seq<seq<int>>)
    requires IsBoard(g)
  {
    |cache| == 0 && CalmUpTo(g, RowLen)
  }

  /** `checkOver`'s loop after its first `n` outer iterations: for every
      `r < n`, no equal pair in row `r` and none in column `r`. */
  ghost predicate CalmUpTo(g: seq<seq<int>>, n: nat)
    requires IsBoard(g) && n <= 4
  {
    n == 0 || (CalmUpTo(g, n - 1) && CalmAt(g, n - 1))
  }

  /** One outer iteration of `checkOver`'s loop: row `r` and column `r`
      hold no equal adjacent pair. */
  ghost predicate CalmAt(g: seq<seq<int>>, r: nat)
    requires IsBoard(g) && r < 4
  {
    forall c :: 0 <= c < ColLen - 1 ==> RowPairDiffers(g, r, c) && ColPairDiffers(g, c, r)
  }

  lemma {:induction false} CalmUpToAt(g: seq<seq<int>>, n: nat, r: nat)
    requires IsBoard(g) && r < n <= 4 && CalmUpTo(g, n)
    ensures CalmAt(g, r)
  {
    if r < n - 1 {
      CalmUpToAt(g, n - 1, r);
    }
  }

  /** `checkOver`'s loop, which pairs row `r` with column `r`, checks
      every horizontal and every vertical adjacent pair. */
  lemma CalmIff(g: seq<seq<int>>)
    requires IsBoard(g)
    ensures CalmUpTo(g, RowLen) <==> NoEqualAdjacent(g)
  {
    if CalmUpTo(g, RowLen) {
      forall r, c | 0 <= r < RowLen && 0 <= c < ColLen - 1
        ensures RowPairDiffers(g, r, c)
      {
        CalmUpToAt(g, RowLen, r);
      }
      forall r, c | 0 <= r < RowLen - 1 && 0 <= c < ColLen
        ensures ColPairDiffers(g, r, c)
      {
        CalmUpToAt(g, RowLen, c);
      }
    }
    if NoEqualAdjacent(g) {
      CalmAll(g, RowLen);
    }
  }

  lemma {:induction false} CalmAll(g: seq<seq<int>>, n: nat)
    requires IsBoard(g) && n <= 4 && NoEqualAdjacent(g)
    ensures CalmUpTo(g, n)
  {
    if n > 0 {
      CalmAll(g, n - 1);
      assert CalmAt(g, n - 1);
    }
  }

  // ---------------------------------------------------------------------
  // Lemmas about a move

  lemma ReverseColAt(g: seq<seq<int>>, i: nat, j: nat)
    requires IsBoard(g) && i < 4 && j < 4
    ensures Reverse(Col(g, i))[j] == g[3 - j][i]
  {
  }

  /** Reading line `i` of the moved board the way the move reads it gives
      the merged line: Left and Up write back `merge(line)`, Right and Down
      write back `reverse(merge(reverse(line)))`. */
  lemma MoveLineMapping(g: seq<seq<int>>, d: MoveDirection, i: nat)
    requires IsBoard(g) && i < 4
    ensures LineOf(MovedGrid(g, d), d, i) == Merge(LineOf(g, d, i), RowLen).line
  {
    var g' := MovedGrid(g, d);
    var m := Merge(LineOf(g, d, i), RowLen).line;
    MergeConserves(LineOf(g, d, i), RowLen);
    match d {
      case Left =>
      case Right => ReverseReverse(m);
      case Up =>
        assert Col(g', i) == Out(g, d, i);
      case Down =>
        assert Col(g', i) == Out(g, d, i);
        ReverseReverse(m);
    }
  }

  function GridSum(g: seq<seq<int>>): int
    requires IsBoard(g)
  {
    Sum(g[0]) + Sum(g[1]) + Sum(g[2]) + Sum(g[3])
  }

  /** The number of tiles (non-zero cells) on the board. */
  function TileCount(g: seq<seq<int>>): int
    requires IsBoard(g)
  {
    |Nonzeros(g[0])| + |Nonzeros(g[1])| + |Nonzeros(g[2])| + |Nonzeros(g[3])|
  }

  function IsTile(x: int): int
  {
    if x != 0 then 1 else 0
  }

  lemma Shape4(a: int, b: int, c: int, d: int)
    ensures Sum([a, b, c, d]) == a + b + c + d
    ensures |Nonzeros([a, b, c, d])| == IsTile(a) + IsTile(b) + IsTile(c) + IsTile(d)
  {
    var s := [a, b, c, d];
    assert s[1..] == [b, c, d] && s[1..][1..] == [c, d] && s[1..][1..][1..] == [d];
    assert s[1..][1..][1..][1..] == [];
    assert Sum([d]) == d + Sum([]);
    assert Sum([c, d]) == c + Sum([d]);
    assert Sum([b, c, d]) == b + Sum([c, d]);
    NonzerosShape4(a, b, c, d);
    var A, B, C, D := (if a != 0 then [a] else []), (if b != 0 then [b] else []),
                      (if c != 0 then [c] else []), (if d != 0 then [d] else []);
    assert |A + B + C + D| == |A| + |B| + |C| + |D|;
  }

  lemma Sum4(s: seq<int>)
    requires |s| == 4
    ensures Sum(s) == s[0] + s[1] + s[2] + s[3]
    ensures |Nonzeros(s)| == IsTile(s[0]) + IsTile(s[1]) + IsTile(s[2]) + IsTile(s[3])
    ensures Sum(Reverse(s)) == Sum(s) && |Nonzeros(Reverse(s))| == |Nonzeros(s)|
  {
    assert s == [s[0], s[1], s[2], s[3]];
    Shape4(s[0], s[1], s[2], s[3]);
    assert Reverse(s) == [s[3], s[2], s[1], s[0]];
    Shape4(s[3], s[2], s[1], s[0]);
  }

  /** Sums and tile counts can be taken column by column. */
  lemma ByColumns(g: seq<seq<int>>)
    requires IsBoard(g)
    ensures GridSum(g) == Sum(Col(g, 0)) + Sum(Col(g, 1)) + Sum(Col(g, 2)) + Sum(Col(g, 3))
    ensures TileCount(g) ==
      |Nonzeros(Col(g, 0))| + |Nonzeros(Col(g, 1))| + |Nonzeros(Col(g, 2))| + |Nonzeros(Col(g, 3))|
  {
    Sum4(g[0]); Sum4(g[1]); Sum4(g[2]); Sum4(g[3]);
    Sum4(Col(g, 0)); Sum4(Col(g, 1)); Sum4(Col(g, 2)); Sum4(Col(g, 3));
  }

  /** The line a move reads has the sum and tile count of the row or column
      it comes from; what the move writes back keeps the sum and has one
      tile fewer per merge of that line. */
  lemma OutConserves(g: seq<seq<int>>, d: MoveDirection, i: nat)
    requires IsBoard(g) && i < 4
    ensures var src := if Horizontal(d) then g[i] else Col(g, i);
      && Sum(Out(g, d, i)) == Sum(src)
      && |Nonzeros(Out(g, d, i))| == |Nonzeros(src)| - |Merge(LineOf(g, d, i), RowLen).changed|
  {
    var l := LineOf(g, d, i);
    var m := Merge(l, RowLen).line;
    MergeConserves(l, RowLen);
    Sum4(m);
    if Horizontal(d) { Sum4(g[i]); } else { Sum4(Col(g, i)); }
  }

  /** Tile conservation: a move keeps the sum of the board, and the number
      of tiles drops by exactly the number of merge locations it reports. */
  lemma MoveConservesTiles(g: seq<seq<int>>, d: MoveDirection)
    requires IsBoard(g)
    ensures GridSum(MovedGrid(g, d)) == GridSum(g)
    ensures TileCount(MovedGrid(g, d)) == TileCount(g) - |MoveLocations(g, d, 4)|
  {
    MoveLocationsCount(g, d);
    if Horizontal(d) {
      RowsConserved(g, d);
    } else {
      ColsConserved(g, d);
    }
  }

  /** The number of merge locations of a move, line by line. */
  lemma MoveLocationsCount(g: seq<seq<int>>, d: MoveDirection)
    requires IsBoard(g)
    ensures |MoveLocations(g, d, 4)| == |Merge(LineOf(g, d, 0), RowLen).changed| +
      |Merge(LineOf(g, d, 1), RowLen).changed| + |Merge(LineOf(g, d, 2), RowLen).changed| +
      |Merge(LineOf(g, d, 3), RowLen).changed|
  {
    assert |MoveLocations(g, d, 1)| == |Merge(LineOf(g, d, 0), RowLen).changed|;
    assert |MoveLocations(g, d, 2)| == |MoveLocations(g, d, 1)| + |Merge(LineOf(g, d, 1), RowLen).changed|;
    assert |MoveLocations(g, d, 3)| == |MoveLocations(g, d, 2)| + |Merge(LineOf(g, d, 2), RowLen).changed|;
  }

  /** Board totals from line totals: if each row `i` of `g'` has the sum of
      row `i` of `g` and `c0`, `c1`, `c2`, `c3` fewer tiles respectively, the
      boards compare the same way. */
  lemma AddRows(g: seq<seq<int>>, g': seq<seq<int>>, c0: int, c1: int, c2: int, c3: int)
    requires IsBoard(g) && IsBoard(g')
    requires Sum(g'[0]) == Sum(g[0]) && |Nonzeros(g'[0])| == |Nonzeros(g[0])| - c0
    requires Sum(g'[1]) == Sum(g[1]) && |Nonzeros(g'[1])| == |Nonzeros(g[1])| - c1
    requires Sum(g'[2]) == Sum(g[2]) && |Nonzeros(g'[2])| == |Nonzeros(g[2])| - c2
    requires Sum(g'[3]) == Sum(g[3]) && |Nonzeros(g'[3])| == |Nonzeros(g[3])| - c3
    ensures GridSum(g') == GridSum(g) && TileCount(g') == TileCount(g) - (c0 + c1 + c2 + c3)
  {
  }


  /** Row `i` of a move along the rows keeps its sum and loses one tile per
      merge. */
  lemma RowConserved(g: seq<seq<int>>, d: MoveDirection, i: nat)
    requires IsBoard(g) && Horizontal(d) && i < 4
    ensures Sum(MovedGrid(g, d)[i]) == Sum(g[i])
    ensures |Nonzeros(MovedGrid(g, d)[i])| == |Nonzeros(g[i])| - |Merge(LineOf(g, d, i), RowLen).changed|
  {
    OutConserves(g, d, i);
  }

  /** `MoveConservesTiles` for a move along the rows. */
  lemma RowsConserved(g: seq<seq<int>>, d: MoveDirection)
    requires IsBoard(g) && Horizontal(d)
    ensures GridSum(MovedGrid(g, d)) == GridSum(g)
    ensures TileCount(MovedGrid(g, d)) == TileCount(g) - (|Merge(LineOf(g, d, 0), RowLen).changed| +
      |Merge(LineOf(g, d, 1), RowLen).changed| + |Merge(LineOf(g, d, 2), RowLen).changed| +
      |Merge(LineOf(g, d, 3), RowLen).changed|)
  {
    RowConserved(g, d, 0); RowConserved(g, d, 1); RowConserved(g, d, 2); RowConserved(g, d, 3);
    AddRows(g, MovedGrid(g, d), |Merge(LineOf(g, d, 0), RowLen).changed|,
      |Merge(LineOf(g, d, 1), RowLen).changed|, |Merge(LineOf(g, d, 2), RowLen).changed|,
      |Merge(LineOf(g, d, 3), RowLen).changed|);
  }

  /** Column `i` of a move along the columns keeps its sum and loses one
      tile per merge. */
  lemma ColConserved(g: seq<seq<int>>, d: MoveDirection, i: nat)
    requires IsBoard(g) && !Horizontal(d) && i < 4
    ensures Sum(Col(MovedGrid(g, d), i)) == Sum(Col(g, i))
    ensures |Nonzeros(Col(MovedGrid(g, d), i))| == |Nonzeros(Col(g, i))| - |Merge(LineOf(g, d, i), RowLen).changed|
  {
    OutConserves(g, d, i);
    assert Col(MovedGrid(g, d), i) == Out(g, d, i);
  }

  /** `AddRows` for columns. */
  lemma AddCols(g: seq<seq<int>>, g': seq<seq<int>>, c0: int, c1: int, c2: int, c3: int)
    requires IsBoard(g) && IsBoard(g')
    requires Sum(Col(g', 0)) == Sum(Col(g, 0)) && |Nonzeros(Col(g', 0))| == |Nonzeros(Col(g, 0))| - c0
    requires Sum(Col(g', 1)) == Sum(Col(g, 1)) && |Nonzeros(Col(g', 1))| == |Nonzeros(Col(g, 1))| - c1
    requires Sum(Col(g', 2)) == Sum(Col(g, 2)) && |Nonzeros(Col(g', 2))| == |Nonzeros(Col(g, 2))| - c2
    requires Sum(Col(g', 3)) == Sum(Col(g, 3)) && |Nonzeros(Col(g', 3))| == |Nonzeros(Col(g, 3))| - c3
    ensures GridSum(g') == GridSum(g) && TileCount(g') == TileCount(g) - (c0 + c1 + c2 + c3)
  {
    ByColumns(g);
    ByColumns(g');
  }

  /** `MoveConservesTiles` for a move along the columns. */
  lemma ColsConserved(g: seq<seq<int>>, d: MoveDirection)
    requires IsBoard(g) && !Horizontal(d)
    ensures GridSum(MovedGrid(g, d)) == GridSum(g)
    ensures TileCount(MovedGrid(g, d)) == TileCount(g) - (|Merge(LineOf(g, d, 0), RowLen).changed| +
      |Merge(LineOf(g, d, 1), RowLen).changed| + |Merge(LineOf(g, d, 2), RowLen).changed| +
      |Merge(LineOf(g, d, 3), RowLen).changed|)
  {
    ColConserved(g, d, 0); ColConserved(g, d, 1); ColConserved(g, d, 2); ColConserved(g, d, 3);
    AddCols(g, MovedGrid(g, d), |Merge(LineOf(g, d, 0), RowLen).changed|,
      |Merge(LineOf(g, d, 1), RowLen).changed|, |Merge(LineOf(g, d, 2), RowLen).changed|,
      |Merge(LineOf(g, d, 3), RowLen).changed|);
  }

  /** Every reported merge location lies on the board. */
  lemma {:induction false} MoveLocationsInBounds(g: seq<seq<int>>, d: MoveDirection, k: nat)
    requires IsBoard(g) && k <= 4
    ensures forall j :: 0 <= j < |MoveLocations(g, d, k)| ==>
      0 <= MoveLocations(g, d, k)[j].rIndex < RowLen && 0 <= MoveLocations(g, d, k)[j].cIndex < ColLen
  {
    if k > 0 {
      MoveLocationsInBounds(g, d, k - 1);
      var l := LineOf(g, d, k - 1);
      MergeIndices(l, RowLen);
      CompactSpec(l, RowLen);
      var ch := Merge(l, RowLen).changed;
      assert forall j :: 0 <= j < |ch| ==> ch[j] + 1 < 4;
    }
  }

  // ---------------------------------------------------------------------
  // Terminal states

  ghost predicate NoZeros(g: seq<seq<int>>)
    requires IsBoard(g)
  {
    forall r, c :: 0 <= r < 4 && 0 <= c < 4 ==> g[r][c] != 0
  }

  lemma NoZerosIff(g: seq<seq<int>>)
    requires IsBoard(g)
    ensures EmptyLocations(g) == [] <==> NoZeros(g)
  {
    EmptyLocationsSpec(g);
    if !NoZeros(g) {
      var r, c :| 0 <= r < 4 && 0 <= c < 4 && g[r][c] == 0;
      assert Location(r, c) in EmptyLocations(g);
    }
    if EmptyLocations(g) != [] {
      assert EmptyLocations(g)[0] in EmptyLocations(g);
    }
  }

  /** On a full board without equal neighbours, every line a move reads is
      full and has no equal neighbours. */
  lemma StuckLines(g: seq<seq<int>>, d: MoveDirection, i: nat)
    requires IsBoard(g) && i < 4 && NoZeros(g) && NoEqualAdjacent(g)
    ensures forall j :: 0 <= j < 4 ==> LineOf(g, d, i)[j] != 0
    ensures NoEqualNeighbours(LineOf(g, d, i))
  {
    var l := LineOf(g, d, i);
    forall j | 0 <= j < 3 ensures !(l[j] != 0 && l[j] == l[j + 1]) {
      match d {
        case Left => assert RowPairDiffers(g, i, j);
        case Right => assert RowPairDiffers(g, i, 2 - j);
        case Up => assert ColPairDiffers(g, j, i);
        case Down =>
          ReverseColAt(g, i, j); ReverseColAt(g, i, j + 1);
          assert ColPairDiffers(g, 2 - j, i);
      }
    }
  }

  lemma StuckOut(g: seq<seq<int>>, d: MoveDirection, i: nat)
    requires IsBoard(g) && i < 4 && NoZeros(g) && NoEqualAdjacent(g)
    ensures Out(g, d, i) == if Horizontal(d) then g[i] else Col(g, i)
  {
    StuckLines(g, d, i);
    MergeStuckLine(LineOf(g, d, i), RowLen);
    if d.Right? { ReverseReverse(g[i]); }
    if d.Down? { ReverseReverse(Col(g, i)); }
  }

  lemma StuckRows(g: seq<seq<int>>, d: MoveDirection)
    requires IsBoard(g) && Horizontal(d)
    requires forall i :: 0 <= i < 4 ==> Out(g, d, i) == g[i]
    ensures MovedGrid(g, d) == g
  {
    forall r | 0 <= r < 4 ensures MovedGrid(g, d)[r] == g[r] {
      MovedRow(g, d, r);
    }
  }

  /** Row `i` of a move along the rows is what the move wrote back for it. */
  lemma MovedRow(g: seq<seq<int>>, d: MoveDirection, i: nat)
    requires IsBoard(g) && Horizontal(d) && i < 4
    ensures MovedGrid(g, d)[i] == Out(g, d, i)
  {
  }

  lemma StuckCols(g: seq<seq<int>>, d: MoveDirection)
    requires IsBoard(g) && !Horizontal(d)
    requires forall i :: 0 <= i < 4 ==> Out(g, d, i) == Col(g, i)
    ensures MovedGrid(g, d) == g
  {
    var g' := MovedGrid(g, d);
    forall r | 0 <= r < 4 ensures g'[r] == g[r] {
      forall c | 0 <= c < 4 ensures g'[r][c] == g[r][c] {
        assert g'[r][c] == Out(g, d, c)[r];
      }
    }
  }

  /** A full board without equal neighbours is left unchanged by every move. */
  lemma StuckBoard(g: seq<seq<int>>, d: MoveDirection)
    requires IsBoard(g) && NoZeros(g) && NoEqualAdjacent(g)
    ensures MovedGrid(g, d) == g
  {
    forall i | 0 <= i < 4 ensures Out(g, d, i) == if Horizontal(d) then g[i] else Col(g, i) {
      StuckOut(g, d, i);
    }
    if Horizontal(d) { StuckRows(g, d); } else { StuckCols(g, d); }
  }

  /** A full board with an equal horizontal pair changes under Left; one
      with an equal vertical pair changes under Up. */
  lemma MovableBoard(g: seq<seq<int>>)
    requires IsBoard(g) && NoZeros(g) && !NoEqualAdjacent(g)
    ensures MovedGrid(g, Left) != g || MovedGrid(g, Up) != g
  {
    if exists r, c :: 0 <= r < 4 && 0 <= c < 3 && !RowPairDiffers(g, r, c) {
      var r, c :| 0 <= r < 4 && 0 <= c < 3 && !RowPairDiffers(g, r, c);
      assert !NoEqualNeighbours(g[r]);
      MergeLineWithPair(g[r], RowLen);
      assert MovedGrid(g, Left)[r] == Out(g, Left, r);
    } else {
      var r, c :| 0 <= r < 3 && 0 <= c < 4 && !ColPairDiffers(g, r, c);
      var col := Col(g, c);
      assert col[r] == col[r + 1];
      assert !NoEqualNeighbours(col);
      MergeLineWithPair(col, RowLen);
      var g' := MovedGrid(g, Up);
      assert Col(g', c) == Out(g, Up, c);
    }
  }

  /** With an up-to-date empty list, `checkOver` decides terminal states:
      it answers true exactly when the board is full and no move changes
      it. */
  lemma OverIffStuck(g: seq<seq<int>>)
    requires IsBoard(g)
    ensures Over(EmptyLocations(g), g) <==>
      EmptyLocations(g) == [] && forall d :: MovedGrid(g, d) == g
  {
    NoZerosIff(g);
    CalmIff(g);
    if EmptyLocations(g) == [] {
      if NoEqualAdjacent(g) {
        forall d ensures MovedGrid(g, d) == g {
          StuckBoard(g, d);
        }
      } else {
        MovableBoard(g);
      }
    }
  }

  /** The stale cache ends the game early. A spawn that fills the last cell
      of `Full` leaves the cached empty list empty; Left then merges the two
      2s and opens cell (0, 3), yet `checkOver` on the stale list reports
      the game over, while a fresh scan would not, and Right still changes
      the board. */
  lemma EarlyOver()
    ensures IsBoard(Full) && EmptyLocations(Full) == []
    ensures MovedGrid(Full, Left) == FullLeft && FullLeft[0][3] == 0
    ensures Over(EmptyLocations(Full), FullLeft)
    ensures !Over(EmptyLocations(FullLeft), FullLeft)
    ensures MovedGrid(FullLeft, Right) != FullLeft
  {
    FullHasNoEmpty();
    FullMovedLeft();
    FullLeftCalm();
    NoZerosIff(FullLeft);
    FullLeftRight();
    MovedRow(FullLeft, Right, 0);
  }

  lemma FullHasNoEmpty()
    ensures IsBoard(Full) && EmptyLocations(Full) == []
  {
    assert NoZeros(Full);
    NoZerosIff(Full);
  }

  lemma FullMovedLeft()
    ensures IsBoard(Full) && MovedGrid(Full, Left) == FullLeft
  {
    FullLeftRows();
    var h := MovedGrid(Full, Left);
    forall i | 0 <= i < 4 ensures h[i] == FullLeft[i] {
      MovedRow(Full, Left, i);
    }
  }

  /** `checkOver`'s scan finds no equal neighbours in `FullLeft`. */
  lemma FullLeftCalm()
    ensures IsBoard(FullLeft) && CalmUpTo(FullLeft, RowLen)
  {
    assert NoEqualAdjacent(FullLeft);
    CalmIff(FullLeft);
  }

  /** The early end needs a board without equal neighbours after the move.
      `checkOver` compares empty cells too, so when Left frees two adjacent
      cells in row 0 of `FullTwoPairs`, it does not report the game over
      even on the stale, empty cache. */
  lemma NoEarlyOver()
    ensures IsBoard(FullTwoPairs) && EmptyLocations(FullTwoPairs) == []
    ensures MovedGrid(FullTwoPairs, Left)[0] == [4, 8, 0, 0]
    ensures !Over(EmptyLocations(FullTwoPairs), MovedGrid(FullTwoPairs, Left))
  {
    assert NoZeros(FullTwoPairs);
    NoZerosIff(FullTwoPairs);
    assert FullTwoPairs[0] == [2, 2, 4, 4];
    MergeTwoPairs();
    MovedRow(FullTwoPairs, Left, 0);
    var h := MovedGrid(FullTwoPairs, Left);
    assert !RowPairDiffers(h, 0, 2);
    if CalmUpTo(h, RowLen) {
      CalmUpToAt(h, RowLen, 0);
    }
  }

  /** `Full` with the 8, 16 of row 0 replaced by a second pair, 4, 4. */
  const FullTwoPairs: seq<seq<int>> := [[2, 2, 4, 4], [8, 16, 32, 64], [4, 8, 16, 32], [8, 16, 32, 64]]

  /** A full board whose only equal neighbours are the two 2s in row 0. */
  const Full: seq<seq<int>> := [[2, 2, 8, 16], [8, 16, 32, 64], [4, 8, 16, 32], [8, 16, 32, 64]]

  /** `Full` after Left. */
  const FullLeft: seq<seq<int>> := [[4, 8, 16, 0], [8, 16, 32, 64], [4, 8, 16, 32], [8, 16, 32, 64]]

  /** Left merges row 0 of `Full` and leaves the other rows alone. */
  lemma FullLeftRows()
    ensures IsBoard(Full)
    ensures forall i :: 0 <= i < 4 ==> Out(Full, Left, i) == FullLeft[i]
  {
    forall i | 0 <= i < 4 ensures Out(Full, Left, i) == FullLeft[i] {
      if i == 0 {
        MergeHeadPair();
      } else if i == 2 {
        MergeStuckLine([4, 8, 16, 32], 4);
      } else {
        MergeStuckLine([8, 16, 32, 64], 4);
      }
    }
  }

  /** Right on `FullLeft` moves row 0 to `[0, 4, 8, 16]`. */
  lemma FullLeftRight()
    ensures IsBoard(FullLeft) && Out(FullLeft, Right, 0) == [0, 4, 8, 16]
  {
    assert FullLeft[0] == [4, 8, 16, 0];
    Reverse4(4, 8, 16, 0);
    MergeSlideOnly();
    Reverse4(16, 8, 4, 0);
  }

  // ---------------------------------------------------------------------
  // One line of a move at a time

  lemma MovedNone(g: seq<seq<int>>, d: MoveDirection)
    requires IsBoard(g)
    ensures MovedUpTo(g, d, 0) == g
  {
    var h := MovedUpTo(g, d, 0);
    forall r | 0 <= r < 4 ensures h[r] == g[r] {
      if !Horizontal(d) {
        assert forall c :: 0 <= c < 4 ==> h[r][c] == g[r][c];
      }
    }
  }

  lemma UnmovedRow(g: seq<seq<int>>, d: MoveDirection, i: nat)
    requires IsBoard(g) && Horizontal(d) && i < 4
    ensures MovedUpTo(g, d, i)[i] == g[i]
  {
  }

  lemma UnmovedCol(g: seq<seq<int>>, d: MoveDirection, i: nat)
    requires IsBoard(g) && !Horizontal(d) && i < 4
    ensures Col(MovedUpTo(g, d, i), i) == Col(g, i)
  {
  }

  lemma RowStep(g: seq<seq<int>>, d: MoveDirection, i: nat)
    requires IsBoard(g) && Horizontal(d) && i < 4
    ensures MovedUpTo(g, d, i)[i := Out(g, d, i)] == MovedUpTo(g, d, i + 1)
  {
  }

  lemma ColStep(g: seq<seq<int>>, d: MoveDirection, i: nat)
    requires IsBoard(g) && !Horizontal(d) && i < 4
    ensures SetCol(MovedUpTo(g, d, i), i, Out(g, d, i)) == MovedUpTo(g, d, i + 1)
  {
    var h := SetCol(MovedUpTo(g, d, i), i, Out(g, d, i));
    var h' := MovedUpTo(g, d, i + 1);
    forall r | 0 <= r < 4 ensures h[r] == h'[r] {
      forall c | 0 <= c < 4 ensures h[r][c] == h'[r][c] {
        if c == i {
          assert h[r][c] == Col(h, i)[r];
        }
      }
    }
  }

  /** The scores after one more merge producing `v`, updated the way
      `merge` does it. */
  lemma ScoreStep(cur0: int, best0: int, vals: seq<int>, v: int, cur: int, best: int)
    requires cur == MaxWith(cur0, vals)
    requires best == if vals != [] then Max(best0, cur) else best0
    ensures var cur' := if v > cur then v else cur;
      && cur' == MaxWith(cur0, vals + [v])
      && (if cur' > best then cur' else best) == Max(best0, cur')
  {
    MaxWithAppend(cur0, vals, [v]);
    assert MaxWith(cur, [v]) == MaxWith(Max(cur, v), []) by {
      assert [v][1..] == [];
    }
  }

  /** `merge`'s pass as its loop runs it, from index `i` on, with the merge
      indices `ch` and merged values `vals` recorded so far. */
  function PassFrom(a: seq<int>, i: nat, ch: seq<nat>, vals: seq<int>): Pass
    requires i <= |a|
    decreases |a| - i
  {
    if i == |a| then Pass(a, ch, vals)
    else if a[i] != 0 && i + 1 < |a| && a[i] == a[i + 1] then
      PassFrom(a[i := a[i] + a[i]][i + 1 := 0], i + 1, ch + [i], vals + [a[i] + a[i]])
    else PassFrom(a, i + 1, ch, vals)
  }

  /** Run from the start, the loop computes the recursive pass. */
  lemma PassFromStart(a: seq<int>)
    ensures PassFrom(a, 0, [], []) == SinglePass(a)
  {
    PassFromResume(a, 0, [], []);
    assert a[..0] == [] && a[0..] == a;
    ShiftZero(SinglePass(a).at);
  }

  lemma ShiftZero(xs: seq<nat>)
    ensures Shift(xs, 0) == xs
  {
  }

  lemma {:induction false} PassFromResume(a: seq<int>, i: nat, ch: seq<nat>, vals: seq<int>)
    requires i <= |a|
    ensures var p := SinglePass(a[i..]);
      PassFrom(a, i, ch, vals) == Pass(a[..i] + p.line, ch + Shift(p.at, i), vals + p.values)
    decreases |a| - i
  {
    if i == |a| {
      assert a[..i] == a && a[i..] == [];
    } else if a[i] != 0 && i + 1 < |a| && a[i] == a[i + 1] {
      var b := a[i := a[i] + a[i]][i + 1 := 0];
      PassFromResume(b, i + 1, ch + [i], vals + [a[i] + a[i]]);
      PassInvMerge(a, i, b, ch, vals, Pass(a[..i] + SinglePass(a[i..]).line, ch + Shift(SinglePass(a[i..]).at, i), vals + SinglePass(a[i..]).values));
    } else {
      PassFromResume(a, i + 1, ch, vals);
      PassStepSkip(a, i);
    }
  }

  /** The pending-work invariant of `merge`'s loop survives a merge at `i`. */
  lemma PassInvMerge(a: seq<int>, i: nat, b: seq<int>, ch: seq<nat>, vals: seq<int>, target: Pass)
    requires i + 1 < |a| && a[i] != 0 && a[i] == a[i + 1]
    requires b == a[i := a[i] + a[i]][i + 1 := 0]
    requires a[..i] + SinglePass(a[i..]).line == target.line
    requires ch + Shift(SinglePass(a[i..]).at, i) == target.at
    requires vals + SinglePass(a[i..]).values == target.values
    ensures b[..i + 1] + SinglePass(b[i + 1..]).line == target.line
    ensures (ch + [i]) + Shift(SinglePass(b[i + 1..]).at, i + 1) == target.at
    ensures (vals + [b[i]]) + SinglePass(b[i + 1..]).values == target.values
  {
    PassStepMerge(a, i, b);
    assert (ch + [i]) + Shift(SinglePass(b[i + 1..]).at, i + 1)
      == ch + ([i] + Shift(SinglePass(b[i + 1..]).at, i + 1));
    assert (vals + [b[i]]) + SinglePass(b[i + 1..]).values
      == vals + ([b[i]] + SinglePass(b[i + 1..]).values);
  }

  /** The scores after line `i` of a move, from those before it. */
  lemma MoveScoreStep(g: seq<seq<int>>, d: MoveDirection, i: nat, cur0: int, best0: int,
                      cur: int, best: int, cur': int, best': int)
    requires IsBoard(g) && i < 4
    requires cur == MaxWith(cur0, MoveValues(g, d, i))
    requires MoveValues(g, d, i) == [] ==> best == best0
    requires MoveValues(g, d, i) != [] ==> best == Max(best0, cur)
    requires cur' == MaxWith(cur, Merge(LineOf(g, d, i), RowLen).values)
    requires best' == if Merge(LineOf(g, d, i), RowLen).values != [] then Max(best, cur') else best
    ensures cur' == MaxWith(cur0, MoveValues(g, d, i + 1))
    ensures MoveValues(g, d, i + 1) == [] ==> best' == best0
    ensures MoveValues(g, d, i + 1) != [] ==> best' == Max(best0, cur')
  {
    MaxWithAppend(cur0, MoveValues(g, d, i), Merge(LineOf(g, d, i), RowLen).values);
    MaxWithBounds(cur, Merge(LineOf(g, d, i), RowLen).values);
  }

  lemma LocationsStep(g: seq<seq<int>>, d: MoveDirection, i: nat, before: seq<Location>, locs: seq<Location>)
    requires IsBoard(g) && i < 4
    requires locs == before + MoveLocations(g, d, i)
    ensures locs + LocsOf(d, i, Merge(LineOf(g, d, i), RowLen).changed) == before + MoveLocations(g, d, i + 1)
  {
  }

  /** The board `m` with the merged line `l` written back as line `i`. */
  function WriteLine(m: seq<seq<int>>, d: MoveDirection, i: nat, l: seq<int>): (m': seq<seq<int>>)
    requires IsBoard(m) && i < 4 && |l| == 4
    ensures IsBoard(m')
  {
    match d
    case Up => SetCol(m, i, l)
    case Down => SetCol(m, i, Reverse(l))
    case Left => m[i := l]
    case Right => m[i := Reverse(l)]
  }

  /** What one iteration of a move's loop updates: the board, the merge
      locations reported so far, and the two scores. */
  datatype Sweep = Sweep(board: seq<seq<int>>, locs: seq<Location>, cur: int, best: int)

  /** One iteration of a move's loop: line `i` is read, merged (raising the
      scores as `merge` does), its merge locations are appended, and it is
      written back. */
  function LineStep(st: Sweep, d: MoveDirection, i: nat): (st': Sweep)
    requires IsBoard(st.board) && i < 4
    ensures IsBoard(st'.board)
  {
    var r := Merge(LineOf(st.board, d, i), RowLen);
    MergeLength(LineOf(st.board, d, i), RowLen);
    var cur := MaxWith(st.cur, r.values);
    Sweep(WriteLine(st.board, d, i, r.line), st.locs + LocsOf(d, i, r.changed), cur,
          if r.values != [] then Max(st.best, cur) else st.best)
  }

  /** The first `k` iterations of a move's loop. */
  function Scan(st: Sweep, d: MoveDirection, k: nat): (st': Sweep)
    requires IsBoard(st.board) && k <= 4
    ensures IsBoard(st'.board)
  {
    if k == 0 then st else LineStep(Scan(st, d, k - 1), d, k - 1)
  }

  /** The loop of a move, line by line, computes the move described line
      by line on the original board: the moved board, the merge locations
      and values of every line, and scores raised to the largest merged
      value. */
  lemma {:induction false} ScanSpec(st: Sweep, d: MoveDirection, k: nat)
    requires IsBoard(st.board) && k <= 4
    ensures Scan(st, d, k).board == MovedUpTo(st.board, d, k)
    ensures Scan(st, d, k).locs == st.locs + MoveLocations(st.board, d, k)
    ensures Scan(st, d, k).cur == MaxWith(st.cur, MoveValues(st.board, d, k))
    ensures Scan(st, d, k).best ==
      if MoveValues(st.board, d, k) != [] then Max(st.best, Scan(st, d, k).cur) else st.best
  {
    if k == 0 {
      MovedNone(st.board, d);
    } else {
      ScanSpec(st, d, k - 1);
      SweepStep(st, d, k - 1, Scan(st, d, k - 1));
    }
  }

  /** The scores over a whole move: neither decreases, the current score is
      at least every merged value, the best score is at least the current
      one after any merge, and a best score that was not below the current
      one stays so. */
  lemma MoveScores(st: Sweep, d: MoveDirection)
    requires IsBoard(st.board)
    ensures Scan(st, d, 4).cur >= st.cur && Scan(st, d, 4).best >= st.best
    ensures forall k :: 0 <= k < |MoveValues(st.board, d, 4)| ==> Scan(st, d, 4).cur >= MoveValues(st.board, d, 4)[k]
    ensures MoveValues(st.board, d, 4) != [] ==> Scan(st, d, 4).best >= Scan(st, d, 4).cur
    ensures st.best >= st.cur ==> Scan(st, d, 4).best >= Scan(st, d, 4).cur
  {
    ScanSpec(st, d, 4);
    MaxWithBounds(st.cur, MoveValues(st.board, d, 4));
  }

  /** One iteration of the loop, from a state that agrees with the first
      `i` lines of the move, agrees with the first `i + 1`. */
  lemma SweepStep(st: Sweep, d: MoveDirection, i: nat, prev: Sweep)
    requires IsBoard(st.board) && i < 4
    requires prev.board == MovedUpTo(st.board, d, i)
    requires prev.locs == st.locs + MoveLocations(st.board, d, i)
    requires prev.cur == MaxWith(st.cur, MoveValues(st.board, d, i))
    requires prev.best == if MoveValues(st.board, d, i) != [] then Max(st.best, prev.cur) else st.best
    ensures LineStep(prev, d, i).board == MovedUpTo(st.board, d, i + 1)
    ensures LineStep(prev, d, i).locs == st.locs + MoveLocations(st.board, d, i + 1)
    ensures LineStep(prev, d, i).cur == MaxWith(st.cur, MoveValues(st.board, d, i + 1))
    ensures LineStep(prev, d, i).best ==
      if MoveValues(st.board, d, i + 1) != [] then Max(st.best, LineStep(prev, d, i).cur) else st.best
  {
    var g := st.board;
    ReadUnmoved(g, d, i);
    var next := LineStep(prev, d, i);
    MergeConserves(LineOf(g, d, i), RowLen);
    MoveScoreStep(g, d, i, st.cur, st.best, prev.cur, prev.best, next.cur, next.best);
    LocationsStep(g, d, i, st.locs, prev.locs);
    if Horizontal(d) { RowStep(g, d, i); } else { ColStep(g, d, i); }
  }

  /** Line `i` is still as the move found it when its turn comes. */
  lemma ReadUnmoved(g: seq<seq<int>>, d: MoveDirection, i: nat)
    requires IsBoard(g) && i < 4
    ensures LineOf(MovedUpTo(g, d, i), d, i) == LineOf(g, d, i)
  {
    if Horizontal(d) { UnmovedRow(g, d, i); } else { UnmovedCol(g, d, i); }
  }

  // ---------------------------------------------------------------------
  // Spawning a tile

  /** `Math.floor(x * n)` for a draw `x` of `Math.random()`, in `[0, 1)`:
      an index into a list of `n > 0` entries, each index taken by the
      draws in a sub-interval of width `1 / n`. */
  function PickIndex(x: real, n: nat): (idx: nat)
    requires 0.0 <= x < 1.0 && n > 0
    ensures idx < n
    ensures idx as real <= x * n as real < idx as real + 1.0
  {
    var y := x * n as real;
    assert y < n as real by {
      assert (1.0 - x) * n as real > 0.0;
    }
    y.Floor
  }

  /** `Math.ceil(x)`: the least integer not below `x`. */
  function Ceil(x: real): (c: int)
    ensures c as real - 1.0 < x <= c as real
  {
    -((-x).Floor)
  }

  /** The value of a new tile for a draw `x` of `Math.random()`: 4 when
      `Math.ceil(x * 10) === 1`, otherwise 2. */
  function SpawnValue(x: real): (v: int)
    requires 0.0 <= x < 1.0
    ensures v == 2 || v == 4
    ensures v == 4 <==> 0.0 < x <= 0.1
  {
    if Ceil(x * 10.0) == 1 then 4 else 2
  }

  // ---------------------------------------------------------------------
  // The engine object

  /** `GameCore`: the board (`_map`), the snapshot taken before each move,
      the scratch lines of the line processor, the cached empty list, the
      flags and the scores. */
  class GameCore {
    var board: Matrix
    var mergeArray: seq<int>
    var zeroFilterArray: seq<int>
    var originalMap: Matrix
    var emptyLocations: seq<Location>
    var isChange: bool
    var isOver: bool
    var bestScore: int
    var currentScore: int
    var changedLocations: seq<Location>

    /** Both matrices are 4 x 4 and distinct objects, and the current score
        never exceeds the best one. */
    ghost predicate Valid()
      reads this, board, originalMap
    {
      && 0 <= currentScore <= bestScore
      && board != originalMap
      && board.Valid() && board.row == RowLen && board.col == ColLen
      && originalMap.Valid() && originalMap.row == RowLen && originalMap.col == ColLen
    }

    constructor ()
      ensures Valid() && fresh(board) && fresh(originalMap)
      ensures board.matrix == ZeroGrid(4, 4) && originalMap.matrix == ZeroGrid(4, 4)
      ensures mergeArray == [] && zeroFilterArray == [] && emptyLocations == []
      ensures !isChange && !isOver && bestScore == 0 && currentScore == 0 && changedLocations == []
    {
      mergeArray := [];
      zeroFilterArray := [];
      emptyLocations := [];
      isChange := false;
      isOver := false;
      bestScore := 0;
      currentScore := 0;
      changedLocations := [];
      board := new Matrix(4, 4);
      originalMap := new Matrix(4, 4);
    }

    /** `removeZero`: a fresh line of `RowLen` zeros into which the
        non-zero entries of `mergeArray` are written from the left; that
        line becomes `mergeArray`. */
    method RemoveZero()
      modifies this`mergeArray, this`zeroFilterArray
      ensures zeroFilterArray == Compact(old(mergeArray), RowLen)
      ensures mergeArray == zeroFilterArray
    {
      zeroFilterArray := Zeros(RowLen);
      assert zeroFilterArray == Compact(mergeArray[..0], RowLen);
      var idx := 0;
      var i := 0;
      var len := |mergeArray|;
      while i < len
        invariant i <= len == |mergeArray| && mergeArray == old(mergeArray)
        invariant idx == |Nonzeros(mergeArray[..i])|
        invariant zeroFilterArray == Compact(mergeArray[..i], RowLen)
      {
        assert mergeArray[..i + 1] == mergeArray[..i] + [mergeArray[i]];
        CompactSnoc(mergeArray[..i], mergeArray[i], RowLen);
        NonzerosAppend(mergeArray[..i], [mergeArray[i]]);
        assert Nonzeros([mergeArray[i]]) == if mergeArray[i] != 0 then [mergeArray[i]] else [] by {
          assert [mergeArray[i]][1..] == [];
        }
        if mergeArray[i] != 0 {
          if idx < |zeroFilterArray| {
            zeroFilterArray := zeroFilterArray[idx := mergeArray[i]];
          } else {
            // a JavaScript array grows when written past its end
            zeroFilterArray := zeroFilterArray + [mergeArray[i]];
          }
          idx := idx + 1;
        }
        i := i + 1;
      }
      assert mergeArray[..len] == mergeArray;
      mergeArray := zeroFilterArray;
    }

    /** `merge`: compacts `mergeArray`, runs the merge pass over it, raises
        the scores, and compacts again. The result and both scores follow
        the line function `Lines.Merge`. */
    method Merge() returns (changedIdx: seq<nat>)
      modifies this`mergeArray, this`zeroFilterArray, this`currentScore, this`bestScore
      ensures mergeArray == Lines.Merge(old(mergeArray), RowLen).line == zeroFilterArray
      ensures changedIdx == Lines.Merge(old(mergeArray), RowLen).changed
      ensures currentScore == MaxWith(old(currentScore), Lines.Merge(old(mergeArray), RowLen).values)
      ensures bestScore == if Lines.Merge(old(mergeArray), RowLen).values != []
        then Max(old(bestScore), currentScore) else old(bestScore)
      ensures old(currentScore) <= currentScore
      ensures old(currentScore) <= old(bestScore) ==> currentScore <= bestScore
    {
      changedIdx := [];
      RemoveZero();
      PassFromStart(mergeArray);
      ghost var target := PassFrom(mergeArray, 0, [], []);
      ghost var vals: seq<int> := [];
      var i := 0;
      var len := |mergeArray|;
      while i < len
        invariant i <= len == |mergeArray|
        invariant PassFrom(mergeArray, i, changedIdx, vals) == target
        invariant currentScore == MaxWith(old(currentScore), vals)
        invariant vals == [] ==> bestScore == old(bestScore)
        invariant vals != [] ==> bestScore == Max(old(bestScore), currentScore)
      {
        if mergeArray[i] != 0 && i + 1 < len && mergeArray[i] == mergeArray[i + 1] {
          ScoreStep(old(currentScore), old(bestScore), vals, mergeArray[i] + mergeArray[i], currentScore, bestScore);
          mergeArray := mergeArray[i := mergeArray[i] + mergeArray[i]][i + 1 := 0];
          changedIdx := changedIdx + [i];
          vals := vals + [mergeArray[i]];
          if mergeArray[i] > currentScore {
            currentScore := mergeArray[i];
          }
          if currentScore > bestScore {
            bestScore := currentScore;
          }
        }
        i := i + 1;
      }
      MaxWithBounds(old(currentScore), vals);
      RemoveZero();
    }

    /** `moveUp`: merges every column towards row 0 and writes it back. */
    method MoveUp()
      requires Valid()
      modifies this`mergeArray, this`zeroFilterArray, this`currentScore, this`bestScore,
        this`changedLocations, board
      ensures Valid()
      ensures Sweep(board.matrix, changedLocations, currentScore, bestScore) ==
        Scan(Sweep(old(board.matrix), old(changedLocations), old(currentScore), old(bestScore)), Up, 4)
    {
      ghost var st0 := Sweep(board.matrix, changedLocations, currentScore, bestScore);
      for i := 0 to ColLen
        invariant Valid()
        invariant Sweep(board.matrix, changedLocations, currentScore, bestScore) == Scan(st0, Up, i)
      {
        assert board.GetColNumbers(i) == Col(board.matrix, i);
        mergeArray := board.GetColNumbers(i);
        MergeLength(mergeArray, RowLen);
        var changed := Merge();
        changedLocations := changedLocations + LocsOf(Up, i, changed);
        board.SetColNumbers(i, mergeArray);
      }
    }

    /** `moveDown`: merges every reversed column towards the bottom row and
        writes it back reversed again. */
    method MoveDown()
      requires Valid()
      modifies this`mergeArray, this`zeroFilterArray, this`currentScore, this`bestScore,
        this`changedLocations, board`matrix
      ensures Valid()
      ensures Sweep(board.matrix, changedLocations, currentScore, bestScore) ==
        Scan(Sweep(old(board.matrix), old(changedLocations), old(currentScore), old(bestScore)), Down, 4)
    {
      ghost var st0 := Sweep(board.matrix, changedLocations, currentScore, bestScore);
      for i := 0 to ColLen
        invariant Sweep(board.matrix, changedLocations, currentScore, bestScore) == Scan(st0, Down, i)
        invariant Valid()
      {
        DownLine(i);
      }
    }

    /** One iteration of `moveDown`'s loop: column `i`, reversed, merged,
        its merge locations mirrored, and written back reversed again. */
    method DownLine(i: nat)
      requires Valid() && i < ColLen
      modifies this`mergeArray, this`zeroFilterArray, this`currentScore, this`bestScore,
        this`changedLocations, board`matrix
      ensures Valid()
      ensures Sweep(board.matrix, changedLocations, currentScore, bestScore) ==
        LineStep(Sweep(old(board.matrix), old(changedLocations), old(currentScore), old(bestScore)), Down, i)
    {
      assert board.GetColNumbers(i) == Col(board.matrix, i);
      mergeArray := Reverse(board.GetColNumbers(i));
      MergeLength(mergeArray, RowLen);
      var changed := Merge();
      changedLocations := changedLocations + LocsOf(Down, i, changed);
      // `reverse` works in place on the array `mergeArray` shares with `zeroFilterArray`
      mergeArray := Reverse(mergeArray);
      zeroFilterArray := mergeArray;
      board.SetColNumbers(i, mergeArray);
    }

    /** `moveLeft`: merges every row towards column 0 and writes it back. */
    method MoveLeft()
      requires Valid()
      modifies this`mergeArray, this`zeroFilterArray, this`currentScore, this`bestScore,
        this`changedLocations, board
      ensures Valid()
      ensures Sweep(board.matrix, changedLocations, currentScore, bestScore) ==
        Scan(Sweep(old(board.matrix), old(changedLocations), old(currentScore), old(bestScore)), Left, 4)
    {
      ghost var st0 := Sweep(board.matrix, changedLocations, currentScore, bestScore);
      for i := 0 to RowLen
        invariant Valid()
        invariant Sweep(board.matrix, changedLocations, currentScore, bestScore) == Scan(st0, Left, i)
      {
        mergeArray := board.GetRowNumbers(i);
        MergeLength(mergeArray, RowLen);
        var changed := Merge();
        changedLocations := changedLocations + LocsOf(Left, i, changed);
        board.SetRowNumbers(i, mergeArray);
      }
    }

    /** `moveRight`: merges every reversed row towards the last column and
        writes it back reversed again. */
    method MoveRight()
      requires Valid()
      modifies this`mergeArray, this`zeroFilterArray, this`currentScore, this`bestScore,
        this`changedLocations, board`matrix
      ensures Valid()
      ensures Sweep(board.matrix, changedLocations, currentScore, bestScore) ==
        Scan(Sweep(old(board.matrix), old(changedLocations), old(currentScore), old(bestScore)), Right, 4)
    {
      ghost var st0 := Sweep(board.matrix, changedLocations, currentScore, bestScore);
      for i := 0 to RowLen
        invariant Valid()
        invariant Sweep(board.matrix, changedLocations, currentScore, bestScore) == Scan(st0, Right, i)
      {
        mergeArray := Reverse(board.GetRowNumbers(i));
        MergeLength(mergeArray, RowLen);
        var changed := Merge();
        changedLocations := changedLocations + LocsOf(Right, i, changed);
        // `reverse` works in place on the array `mergeArray` shares with `zeroFilterArray`
        mergeArray := Reverse(mergeArray);
        zeroFilterArray := mergeArray;
        board.SetRowNumbers(i, mergeArray);
      }
    }

    /** `move`: snapshots the board, moves it, records whether any cell
        changed and latches `isOver` when `checkOver` answers true. The scratch
        lines are left as the last line's merge leaves them. */
    method Move(direction: MoveDirection)
      requires Valid()
      modifies this, board
      ensures Valid() && board == old(board)
      ensures Sweep(board.matrix, changedLocations, currentScore, bestScore) ==
        Scan(Sweep(old(board.matrix), old(changedLocations), old(currentScore), old(bestScore)), direction, 4)
      ensures fresh(originalMap) && originalMap.matrix == old(board.matrix)
      ensures isChange <==> board.matrix != old(board.matrix)
      ensures isOver == (old(isOver) || Over(emptyLocations, board.matrix))
      ensures emptyLocations == old(emptyLocations)
    {
      Advance(direction);
      ghost var moved := Sweep(board.matrix, changedLocations, currentScore, bestScore);
      ghost var snapshot := originalMap.matrix;
      Settle();
      assert Sweep(board.matrix, changedLocations, currentScore, bestScore) == moved;
      assert originalMap.matrix == snapshot == old(board.matrix);
    }

    /** The first half of `move`: the snapshot into `originalMap`, the
        reset of `isChange`, and the `switch` that runs the chosen pass. */
    method Advance(direction: MoveDirection)
      requires Valid()
      modifies this`originalMap, this`isChange, this`mergeArray, this`zeroFilterArray, this`currentScore,
        this`bestScore, this`changedLocations, board
      ensures Valid() && board == old(board) && fresh(originalMap) && originalMap.matrix == old(board.matrix)
      ensures Sweep(board.matrix, changedLocations, currentScore, bestScore) ==
        Scan(Sweep(old(board.matrix), old(changedLocations), old(currentScore), old(bestScore)), direction, 4)
    {
      originalMap := board.Clone();
      isChange := false;
      match direction {
        case Up => MoveUp();
        case Down => MoveDown();
        case Left => MoveLeft();
        case Right => MoveRight();
      }
    }

    /** The second half of `move`: `isChange` from comparing the board with
        the snapshot, and `isOver` latched when `checkOver` says so. */
    method Settle()
      requires Valid()
      modifies this`isChange, this`isOver
      ensures isChange <==> board.matrix != originalMap.matrix
      ensures isOver == (old(isOver) || Over(emptyLocations, board.matrix))
    {
      isChange := board.IsChange(originalMap);
      DiffersIff(board.matrix, originalMap.matrix);
      var over := CheckOver();
      if over {
        isOver := true;
      }
    }

    /** `generateNumber`, with the two draws of `Math.random()` as the
        parameters `pick` and `kind`: the empty list is recomputed and
        cached; when it is non-empty, the entry `PickIndex(pick, n)` gets
        the tile `SpawnValue(kind)` and is spliced out of the cache, and
        the value and location are returned; otherwise `-1` and the
        location `(-1, -1)` are returned and the board is left alone. */
    method GenerateNumber(pick: real, kind: real) returns (num: int, location: Location)
      requires Valid() && 0.0 <= pick < 1.0 && 0.0 <= kind < 1.0
      modifies this`emptyLocations, board`matrix
      ensures Valid()
      ensures var e := EmptyLocations(old(board.matrix));
        if e == [] then
          && num == -1 && location == Location(-1, -1)
          && board.matrix == old(board.matrix) && emptyLocations == []
        else
          var idx := PickIndex(pick, |e|);
          && location == e[idx] && num == SpawnValue(kind)
          && InBounds(old(board.matrix), location) && old(board.matrix)[location.rIndex][location.cIndex] == 0
          && board.matrix == SetCell(old(board.matrix), location, num)
          && emptyLocations == e[..idx] + e[idx + 1..]
      ensures emptyLocations == EmptyLocations(board.matrix)
    {
      emptyLocations := board.GetEmptyLocations();
      if |emptyLocations| > 0 {
        var idx := PickIndex(pick, |emptyLocations|);
        location := emptyLocations[idx];
        num := SpawnValue(kind);
        EmptyLocationsSpec(board.matrix);
        assert location in emptyLocations;
        SpawnRescan(board.matrix, idx, num);
        board.SetNumber(location, num);
        emptyLocations := emptyLocations[..idx] + emptyLocations[idx + 1..];
      } else {
        num := -1;
        location := Location(-1, -1);
      }
    }

    /** `reset`: clears the over flag and the current score and starts a
        fresh empty board; the best score, the snapshot, the caches and the
        merge locations are kept. */
    method Reset()
      requires Valid()
      modifies this`isOver, this`currentScore, this`board
      ensures Valid() && fresh(board) && board.matrix == ZeroGrid(4, 4)
      ensures !isOver && currentScore == 0
    {
      isOver := false;
      currentScore := 0;
      board := new Matrix(4, 4);
    }

    /** `checkOver`: false while the cached empty list is non-empty;
        otherwise true exactly when no two adjacent cells are equal. */
    method CheckOver() returns (over: bool)
      requires Valid()
      ensures over == Over(emptyLocations, board.matrix)
    {
      if |emptyLocations| > 0 {
        return false;
      }
      var r := 0;
      while r < RowLen
        invariant r <= RowLen && CalmUpTo(board.matrix, r)
      {
        var c := 0;
        while c < ColLen - 1
          invariant c <= ColLen - 1
          invariant forall c' :: 0 <= c' < c ==>
            RowPairDiffers(board.matrix, r, c') && ColPairDiffers(board.matrix, c', r)
        {
          if board.GetNumber(Location(r, c)) == board.GetNumber(Location(r, c + 1))
            || board.GetNumber(Location(c, r)) == board.GetNumber(Location(c + 1, r))
          {
            assert !(RowPairDiffers(board.matrix, r, c) && ColPairDiffers(board.matrix, c, r));
            if CalmUpTo(board.matrix, RowLen) {
              CalmUpToAt(board.matrix, RowLen, r);
            }
            return false;
          }
          c := c + 1;
        }
        r := r + 1;
      }
      return true;
    }
  }
}
