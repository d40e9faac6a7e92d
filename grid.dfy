/** The board: a fixed-size grid of integers where 0 is an empty cell.
    Pure functions on grid values first, then the `Matrix` class whose
    methods are proved against them. */
module Grid {
  import opened Types
  import opened Lines

  /** `g` has `rows` rows of `cols` cells each. */
  ghost predicate IsGrid(g: seq<seq<int>>, rows: nat, cols: nat)
  {
    |g| == rows && forall r :: 0 <= r < rows ==> |g[r]| == cols
  }

  predicate InBounds(g: seq<seq<int>>, loc: Location)
  {
    0 <= loc.rIndex < |g| && 0 <= loc.cIndex < |g[loc.rIndex]|
  }

  /** `rows` rows of `cols` zeros. */
  function ZeroGrid(rows: nat, cols: nat): (g: seq<seq<int>>)
    ensures IsGrid(g, rows, cols)
    ensures forall r, c :: 0 <= r < rows && 0 <= c < cols ==> g[r][c] == 0
  {
    seq(rows, _ => Zeros(cols))
  }

  /** Column `c`, top to bottom. */
  function Col(g: seq<seq<int>>, c: nat): (col: seq<int>)
    requires forall r :: 0 <= r < |g| ==> c < |g[r]|
    ensures |col| == |g| && forall r :: 0 <= r < |g| ==> col[r] == g[r][c]
  {
    seq(|g|, r requires 0 <= r < |g| => g[r][c])
  }

  /** `g` with the cell at `loc` set to `v`. */
  function SetCell(g: seq<seq<int>>, loc: Location, v: int): (g': seq<seq<int>>)
    requires InBounds(g, loc)
    ensures |g'| == |g| && forall r :: 0 <= r < |g| ==> |g'[r]| == |g[r]|
    ensures g'[loc.rIndex][loc.cIndex] == v
    ensures forall r, c :: 0 <= r < |g| && 0 <= c < |g[r]| && (r, c) != (loc.rIndex, loc.cIndex) ==>
      g'[r][c] == g[r][c]
  {
    g[loc.rIndex := g[loc.rIndex][loc.cIndex := v]]
  }

  /** `g` with column `c` replaced by `xs`, row by row. */
  function SetCol(g: seq<seq<int>>, c: nat, xs: seq<int>): (g': seq<seq<int>>)
    requires |xs| == |g| && forall r :: 0 <= r < |g| ==> c < |g[r]|
    ensures |g'| == |g| && forall r :: 0 <= r < |g| ==> |g'[r]| == |g[r]|
    ensures Col(g', c) == xs
    ensures forall r, c' :: 0 <= r < |g| && 0 <= c' < |g[r]| && c' != c ==> g'[r][c'] == g[r][c']
  {
    seq(|g|, r requires 0 <= r < |g| => g[r][c := xs[r]])
  }

  // ---------------------------------------------------------------------
  // Empty cells in row-major order

  /** The empty cells among the first `j` cells of `row`, which is row `r`. */
  function EmptyInRow(row: seq<int>, r: int, j: nat): seq<Location>
    requires j <= |row|
  {
    if j == 0 then [] else EmptyInRow(row, r, j - 1) + (if row[j - 1] == 0 then [Location(r, j - 1)] else [])
  }

  /** The empty cells of the first `i` rows of `g`, row by row. */
  function EmptyInRows(g: seq<seq<int>>, i: nat): seq<Location>
    requires i <= |g|
  {
    if i == 0 then [] else EmptyInRows(g, i - 1) + EmptyInRow(g[i - 1], i - 1, |g[i - 1]|)
  }

  /** All empty cells of `g`, in row-major order. */
  function EmptyLocations(g: seq<seq<int>>): seq<Location>
  {
    EmptyInRows(g, |g|)
  }

  /** `a` comes strictly before `b` in row-major order. */
  predicate Before(a: Location, b: Location)
  {
    a.rIndex < b.rIndex || (a.rIndex == b.rIndex && a.cIndex < b.cIndex)
  }

  /** Strictly increasing in row-major order (so no location occurs twice). */
  ghost predicate RowMajor(locs: seq<Location>)
  {
    forall a, b :: 0 <= a < b < |locs| ==> Before(locs[a], locs[b])
  }

  lemma RowMajorAppend(xs: seq<Location>, ys: seq<Location>)
    requires RowMajor(xs) && RowMajor(ys)
    requires forall a, b :: 0 <= a < |xs| && 0 <= b < |ys| ==> Before(xs[a], ys[b])
    ensures RowMajor(xs + ys)
  {
    forall a, b | 0 <= a < b < |xs + ys| ensures Before((xs + ys)[a], (xs + ys)[b]) {
      if b < |xs| {
        assert Before(xs[a], xs[b]);
      } else if a >= |xs| {
        assert Before(ys[a - |xs|], ys[b - |xs|]);
      } else {
        assert Before(xs[a], ys[b - |xs|]);
      }
    }
  }

  lemma {:induction false} EmptyInRowSpec(row: seq<int>, r: int, j: nat)
    requires j <= |row|
    ensures forall l :: l in EmptyInRow(row, r, j) <==>
      l.rIndex == r && 0 <= l.cIndex < j && row[l.cIndex] == 0
    ensures RowMajor(EmptyInRow(row, r, j))
  {
    if j > 0 {
      EmptyInRowSpec(row, r, j - 1);
      var xs := EmptyInRow(row, r, j - 1);
      var ys: seq<Location> := if row[j - 1] == 0 then [Location(r, j - 1)] else [];
      forall a, b | 0 <= a < |xs| && 0 <= b < |ys| ensures Before(xs[a], ys[b]) {
        assert xs[a] in xs;
      }
      RowMajorAppend(xs, ys);
    }
  }

  lemma {:induction false} EmptyInRowsSpec(g: seq<seq<int>>, i: nat)
    requires i <= |g|
    ensures forall l :: l in EmptyInRows(g, i) <==>
      0 <= l.rIndex < i && 0 <= l.cIndex < |g[l.rIndex]| && g[l.rIndex][l.cIndex] == 0
    ensures RowMajor(EmptyInRows(g, i))
  {
    if i > 0 {
      EmptyInRowsSpec(g, i - 1);
      EmptyInRowSpec(g[i - 1], i - 1, |g[i - 1]|);
      var xs := EmptyInRows(g, i - 1);
      var ys := EmptyInRow(g[i - 1], i - 1, |g[i - 1]|);
      forall a, b | 0 <= a < |xs| && 0 <= b < |ys| ensures Before(xs[a], ys[b]) {
        assert xs[a] in xs;
        assert ys[b] in ys;
      }
      RowMajorAppend(xs, ys);
    }
  }

  /** `getEmptyLocations` lists exactly the cells holding 0, each once, in
      row-major order. */
  lemma EmptyLocationsSpec(g: seq<seq<int>>)
    ensures forall l :: l in EmptyLocations(g) <==> InBounds(g, l) && g[l.rIndex][l.cIndex] == 0
    ensures RowMajor(EmptyLocations(g))
  {
    EmptyInRowsSpec(g, |g|);
  }

  // ---------------------------------------------------------------------
  // The empty list after a spawn

  /** `locs` without `l`. */
  function Without(locs: seq<Location>, l: Location): seq<Location>
  {
    if locs == [] then [] else (if locs[0] == l then [] else [locs[0]]) + Without(locs[1..], l)
  }

  lemma {:induction false} WithoutAppend(xs: seq<Location>, ys: seq<Location>, l: Location)
    ensures Without(xs + ys, l) == Without(xs, l) + Without(ys, l)
  {
    if xs == [] {
      assert xs + ys == ys;
    } else {
      assert (xs + ys)[1..] == xs[1..] + ys;
      WithoutAppend(xs[1..], ys, l);
    }
  }

  lemma {:induction false} WithoutAbsent(xs: seq<Location>, l: Location)
    requires l !in xs
    ensures Without(xs, l) == xs
  {
    if xs != [] {
      WithoutAbsent(xs[1..], l);
    }
  }

  /** Removing position `idx` from a list without repetitions is removing
      the location stored there (the `splice` of the cached empty list). */
  lemma {:induction false} SpliceIsWithout(locs: seq<Location>, idx: nat)
    requires RowMajor(locs) && idx < |locs|
    ensures locs[..idx] + locs[idx + 1..] == Without(locs, locs[idx])
  {
    var l := locs[idx];
    assert locs == locs[..idx] + [l] + locs[idx + 1..];
    assert l !in locs[..idx] by {
      forall a | 0 <= a < idx ensures locs[..idx][a] != l {
        assert Before(locs[a], locs[idx]);
      }
    }
    var rest := locs[idx + 1..];
    assert l !in rest by {
      forall b | 0 <= b < |rest| ensures rest[b] != l {
        assert Before(locs[idx], locs[idx + 1 + b]);
      }
    }
    WithoutAppend(locs[..idx] + [l], locs[idx + 1..], l);
    WithoutAppend(locs[..idx], [l], l);
    WithoutAbsent(locs[..idx], l);
    WithoutAbsent(locs[idx + 1..], l);
    assert Without([l], l) == [] by {
      assert [l][1..] == [];
    }
    assert locs[..idx] + [] == locs[..idx];
  }

  lemma {:induction false} EmptyInRowSet(row: seq<int>, r: int, c: nat, v: int, j: nat)
    requires c < |row| && j <= |row| && v != 0
    ensures EmptyInRow(row[c := v], r, j) == Without(EmptyInRow(row, r, j), Location(r, c))
  {
    var l := Location(r, c);
    if j > 0 {
      EmptyInRowSet(row, r, c, v, j - 1);
      var tail: seq<Location> := if row[j - 1] == 0 then [Location(r, j - 1)] else [];
      WithoutAppend(EmptyInRow(row, r, j - 1), tail, l);
      if j - 1 == c {
        assert Without(tail, l) == [] by {
          if tail != [] { assert tail[1..] == []; }
        }
        assert EmptyInRow(row[c := v], r, j) == EmptyInRow(row[c := v], r, j - 1) + [];
      } else {
        WithoutAbsent(tail, l);
        assert row[c := v][j - 1] == row[j - 1];
      }
    }
  }

  lemma {:induction false} EmptyInRowsSet(g: seq<seq<int>>, loc: Location, v: int, i: nat)
    requires InBounds(g, loc) && v != 0 && i <= |g|
    ensures EmptyInRows(SetCell(g, loc, v), i) == Without(EmptyInRows(g, i), loc)
  {
    if i > 0 {
      var g' := SetCell(g, loc, v);
      EmptyInRowsSet(g, loc, v, i - 1);
      var ys := EmptyInRow(g[i - 1], i - 1, |g[i - 1]|);
      WithoutAppend(EmptyInRows(g, i - 1), ys, loc);
      if i - 1 == loc.rIndex {
        assert g'[i - 1] == g[i - 1][loc.cIndex := v];
        EmptyInRowSet(g[i - 1], i - 1, loc.cIndex, v, |g[i - 1]|);
      } else {
        assert g'[i - 1] == g[i - 1];
        EmptyInRowSpec(g[i - 1], i - 1, |g[i - 1]|);
        WithoutAbsent(ys, loc);
      }
    }
  }

  /** Writing a tile into an empty cell removes exactly that cell from the
      row-major list of empty cells, so the spliced cache of
      `generateNumber` is an exact rescan of the new grid. */
  lemma SpawnRescan(g: seq<seq<int>>, idx: nat, v: int)
    requires idx < |EmptyLocations(g)| && v != 0
    ensures InBounds(g, EmptyLocations(g)[idx])
    ensures var e := EmptyLocations(g);
      EmptyLocations(SetCell(g, e[idx], v)) == e[..idx] + e[idx + 1..]
  {
    var e := EmptyLocations(g);
    EmptyLocationsSpec(g);
    assert e[idx] in e;
    EmptyInRowsSet(g, e[idx], v, |g|);
    SpliceIsWithout(e, idx);
  }

  // ---------------------------------------------------------------------
  // Cell-wise difference

  /** Some cell of `g` differs from the same cell of `h`. */
  ghost predicate Differs(g: seq<seq<int>>, h: seq<seq<int>>)
    requires |h| == |g| && forall r :: 0 <= r < |g| ==> |h[r]| == |g[r]|
  {
    exists r, c :: 0 <= r < |g| && 0 <= c < |g[r]| && g[r][c] != h[r][c]
  }

  /** For grids of the same shape, "some cell differs" is "the grids are
      not equal"; in particular a grid never differs from its copy. */
  lemma DiffersIff(g: seq<seq<int>>, h: seq<seq<int>>)
    requires |h| == |g| && forall r :: 0 <= r < |g| ==> |h[r]| == |g[r]|
    ensures Differs(g, h) <==> g != h
  {
    if !Differs(g, h) {
      forall r | 0 <= r < |g| ensures g[r] == h[r] {
        assert forall c :: 0 <= c < |g[r]| ==> g[r][c] == h[r][c];
      }
    }
  }


  // ---------------------------------------------------------------------

  /** A `row` x `col` grid of numbers. Rows are values: a row read from the
      matrix is a copy, and writing a row replaces it. */
  class Matrix {
    var row: nat
    var col: nat
    var matrix: seq<seq<int>>

    ghost predicate Valid()
      reads this
    {
      IsGrid(matrix, row, col)
    }

    /** Sets every element of `arr` to `num`, by default 0. */
    static method Fill(arr: array<int>, num: int := 0)
      modifies arr
      ensures forall i :: 0 <= i < arr.Length ==> arr[i] == num
    {
      var i := 0;
      while i < arr.Length
        invariant 0 <= i <= arr.Length
        invariant forall k :: 0 <= k < i ==> arr[k] == num
      {
        arr[i] := num;
        i := i + 1;
      }
    }

    /** A `row` x `col` matrix of zeros. */
    constructor (row: nat, col: nat)
      ensures Valid() && this.row == row && this.col == col
      ensures matrix == ZeroGrid(row, col)
    {
      this.row := row;
      this.col := col;
      matrix := [];
      new;
      Init();
    }

    /** Appends `row` rows of `col` zeros. */
    method Init()
      modifies this`matrix
      ensures matrix == old(matrix) + ZeroGrid(row, col)
    {
      var i := 0;
      while i < row
        invariant 0 <= i <= row
        invariant matrix == old(matrix) + ZeroGrid(i, col)
      {
        var rowArr := new int[col];
        Fill(rowArr);
        assert rowArr[..] == Zeros(col);
        matrix := matrix + [rowArr[..]];
        assert ZeroGrid(i + 1, col) == ZeroGrid(i, col) + [Zeros(col)];
        i := i + 1;
      }
    }

    method SetNumber(loc: Location, num: int)
      requires Valid() && InBounds(matrix, loc)
      modifies this`matrix
      ensures Valid() && matrix == SetCell(old(matrix), loc, num)
    {
      matrix := matrix[loc.rIndex := matrix[loc.rIndex][loc.cIndex := num]];
    }

    function GetNumber(loc: Location): int
      reads this
      requires Valid() && InBounds(matrix, loc)
    {
      matrix[loc.rIndex][loc.cIndex]
    }

    function GetRowNumbers(rowIdx: nat): seq<int>
      reads this
      requires Valid() && rowIdx < row
    {
      matrix[rowIdx]
    }

    /** Replaces row `rowIdx`; the other rows stay as they were. */
    method SetRowNumbers(rowIdx: nat, rows: seq<int>)
      requires Valid() && rowIdx < row && |rows| == col
      modifies this`matrix
      ensures Valid() && matrix == old(matrix)[rowIdx := rows]
    {
      matrix := matrix[rowIdx := rows];
    }

    function GetColNumbers(colIdx: nat): (cols: seq<int>)
      reads this
      requires Valid() && colIdx < col
      ensures |cols| == row && forall i :: 0 <= i < row ==> cols[i] == GetNumber(Location(i, colIdx))
    {
      Col(matrix, colIdx)
    }

    /** Writes `cols[i]` into cell `(i, colIdx)` for every row. */
    method SetColNumbers(colIdx: nat, cols: seq<int>)
      requires Valid() && colIdx < col && |cols| == row
      modifies this`matrix
      ensures Valid() && matrix == SetCol(old(matrix), colIdx, cols)
    {
      var idx := 0;
      while idx < row
        invariant 0 <= idx <= row && |matrix| == row
        invariant forall r :: 0 <= r < idx ==> matrix[r] == old(matrix)[r][colIdx := cols[r]]
        invariant forall r :: idx <= r < row ==> matrix[r] == old(matrix)[r]
      {
        matrix := matrix[idx := matrix[idx][colIdx := cols[idx]]];
        idx := idx + 1;
      }
      assert matrix == SetCol(old(matrix), colIdx, cols);
    }

    /** A deep copy: a fresh matrix with the same contents. */
    method Clone() returns (map': Matrix)
      requires Valid()
      ensures fresh(map') && map'.Valid()
      ensures map'.row == row && map'.col == col && map'.matrix == matrix
    {
      map' := new Matrix(row, col);
      var i := 0;
      while i < row
        invariant 0 <= i <= row
        invariant fresh(map') && map'.Valid() && map'.row == row && map'.col == col
        invariant map'.matrix[..i] == matrix[..i]
      {
        map'.SetRowNumbers(i, GetRowNumbers(i));
        assert map'.matrix[..i + 1] == map'.matrix[..i] + [matrix[i]];
        assert matrix[..i + 1] == matrix[..i] + [matrix[i]];
        i := i + 1;
      }
      assert map'.matrix == map'.matrix[..row] && matrix == matrix[..row];
    }

    method GetEmptyLocations() returns (locs: seq<Location>)
      requires Valid()
      ensures locs == EmptyLocations(matrix)
    {
      locs := [];
      var i := 0;
      while i < row
        invariant 0 <= i <= row
        invariant locs == EmptyInRows(matrix, i)
      {
        var j := 0;
        while j < col
          invariant 0 <= j <= col
          invariant locs == EmptyInRows(matrix, i) + EmptyInRow(matrix[i], i, j)
        {
          if matrix[i][j] == 0 {
            locs := locs + [Location(i, j)];
          }
          j := j + 1;
        }
        i := i + 1;
      }
    }

    /** Whether some cell differs from the same cell of `map'`. */
    method IsChange(map': Matrix) returns (b: bool)
      requires Valid() && map'.Valid() && map'.row == row && map'.col == col
      ensures b == Differs(matrix, map'.matrix)
    {
      var i := 0;
      while i < row
        invariant 0 <= i <= row
        invariant forall r, c :: 0 <= r < i && 0 <= c < col ==> matrix[r][c] == map'.matrix[r][c]
      {
        var j := 0;
        while j < col
          invariant 0 <= j <= col
          invariant forall c :: 0 <= c < j ==> matrix[i][c] == map'.matrix[i][c]
        {
          if matrix[i][j] != map'.GetNumber(Location(i, j)) {
            return true;
          }
          j := j + 1;
        }
        i := i + 1;
      }
      return false;
    }
  }
}
