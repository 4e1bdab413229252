/** The word search of day 4: a grid of letters in which "XMAS" is counted in all eight
    directions (part 1), and crosses of two "MAS" diagonals are counted (part 2). The grid is the
    puzzle lines, one character per column; its width is the length of the first line. */
module WordSearch {
  type Grid = seq<seq<char>>

  function Width(g: Grid): nat
    requires |g| >= 1
  {
    |g[0]|
  }

  /** What the search needs in order not to panic: a first row (`table[0]`); no `rows - 3` or
      `columns - 3` underflow once a cell is visited; and no row shorter than the first, since
      every row is indexed up to the first row's width. */
  predicate Searchable(g: Grid)
  {
    |g| >= 1
    && (Width(g) > 0 ==> |g| >= 3 && Width(g) >= 3)
    && forall r :: 0 <= r < |g| ==> |g[r]| >= Width(g)
  }

  /** The `check` closure: the four letters in order are X, M, A, S. */
  predicate Check(a: char, b: char, c: char, d: char)
  {
    a == 'X' && b == 'M' && c == 'A' && d == 'S'
  }

  /** `check` accepts exactly the word "XMAS". */
  lemma CheckIsXmas(a: char, b: char, c: char, d: char)
    ensures Check(a, b, c, d) <==> [a, b, c, d] == "XMAS"
  {
    if [a, b, c, d] == "XMAS" {
      assert [a, b, c, d][0] == 'X' && [a, b, c, d][1] == 'M';
      assert [a, b, c, d][2] == 'A' && [a, b, c, d][3] == 'S';
    }
  }

  function One(b: bool): nat
  {
    if b then 1 else 0
  }

  // ---------------------------------------------------------------------------------------
  // Part 1, per start cell (lines 56-138)

  /** Across (forwards, then backwards) and down (forwards, then backwards), each counted
      only when the four cells from (i, j) fit in the grid. */
  function Straight(g: Grid, i: nat, j: nat): nat
    requires Searchable(g) && i < |g| && j < Width(g)
  {
    var rows, columns := |g|, Width(g);
    One(j < columns - 3 && Check(g[i][j], g[i][j + 1], g[i][j + 2], g[i][j + 3]))
    + One(j < columns - 3 && Check(g[i][j + 3], g[i][j + 2], g[i][j + 1], g[i][j]))
    + One(i < rows - 3 && Check(g[i][j], g[i + 1][j], g[i + 2][j], g[i + 3][j]))
    + One(i < rows - 3 && Check(g[i + 3][j], g[i + 2][j], g[i + 1][j], g[i][j]))
  }

  /** The two diagonals of the 4×4 window at (i, j), each read both ways and joined by `||`. */
  function Diagonals(g: Grid, i: nat, j: nat): nat
    requires Searchable(g) && i < |g| && j < Width(g)
  {
    var rows, columns := |g|, Width(g);
    if i < rows - 3 && j < columns - 3 then
      One(Check(g[i][j], g[i + 1][j + 1], g[i + 2][j + 2], g[i + 3][j + 3])
          || Check(g[i + 3][j + 3], g[i + 2][j + 2], g[i + 1][j + 1], g[i][j]))
      + One(Check(g[i][j + 3], g[i + 1][j + 2], g[i + 2][j + 1], g[i + 3][j])
          || Check(g[i + 3][j], g[i + 2][j + 1], g[i + 1][j + 2], g[i][j + 3]))
    else 0
  }

  /** The `p2_check` closure on the 3×3 block at (i, j): the main diagonal reads `first` and the
      anti-diagonal reads `second`, both through the centre. */
  predicate P2Check(first: string, second: string, g: Grid, i: nat, j: nat)
    requires |first| == 3 && |second| == 3
    requires Searchable(g) && i + 2 < |g| && j + 2 < Width(g)
  {
    g[i][j] == first[0] && g[i + 1][j + 1] == first[1] && g[i + 2][j + 2] == first[2]
    && g[i][j + 2] == second[0] && g[i + 1][j + 1] == second[1] && g[i + 2][j] == second[2]
  }

  /** Part 2 at (i, j): the 3×3 block fits and one of the four MAS/SAM pairings matches. */
  function Cross(g: Grid, i: nat, j: nat): nat
    requires Searchable(g) && i < |g| && j < Width(g)
  {
    if i < |g| - 2 && j < Width(g) - 2 then
      One(P2Check("MAS", "MAS", g, i, j) || P2Check("SAM", "SAM", g, i, j)
          || P2Check("MAS", "SAM", g, i, j) || P2Check("SAM", "MAS", g, i, j))
    else 0
  }

  // ---------------------------------------------------------------------------------------
  // What the window tests mean

  predicate InGrid(g: Grid, r: int, c: int)
    requires |g| >= 1
  {
    0 <= r < |g| && 0 <= c < Width(g)
  }

  /** "XMAS" is read from (r, c) stepping by (dr, dc), every letter inside the grid. */
  predicate Reads(g: Grid, r: int, c: int, dr: int, dc: int)
    requires Searchable(g)
  {
    InGrid(g, r, c) && InGrid(g, r + 3 * dr, c + 3 * dc)
    && Check(g[r][c], g[r + dr][c + dc], g[r + 2 * dr][c + 2 * dc], g[r + 3 * dr][c + 3 * dc])
  }

  /** The straight tests count "XMAS" read rightwards from (i, j), leftwards from (i, j + 3),
      downwards from (i, j) and upwards from (i + 3, j): once each, and only inside the grid. */
  lemma StraightReads(g: Grid, i: nat, j: nat)
    requires Searchable(g) && i < |g| && j < Width(g)
    ensures Straight(g, i, j)
         == One(Reads(g, i, j, 0, 1)) + One(Reads(g, i, j + 3, 0, -1))
          + One(Reads(g, i, j, 1, 0)) + One(Reads(g, i + 3, j, -1, 0))
  {
  }

  /** Each diagonal adds at most 1, and the `||` loses nothing: "XMAS" cannot be read both
      ways along one diagonal, so the diagonal tests count the four diagonal readings. */
  lemma DiagonalsRead(g: Grid, i: nat, j: nat)
    requires Searchable(g) && i < |g| && j < Width(g)
    ensures Diagonals(g, i, j)
         == One(Reads(g, i, j, 1, 1)) + One(Reads(g, i + 3, j + 3, -1, -1))
          + One(Reads(g, i, j + 3, 1, -1)) + One(Reads(g, i + 3, j, -1, 1))
    ensures Diagonals(g, i, j) <= 2
  {
  }

  predicate MasOrSam(a: char, b: char, c: char)
  {
    [a, b, c] == "MAS" || [a, b, c] == "SAM"
  }

  /** Part 2 counts the block at (i, j) exactly when it fits and both of its diagonals read MAS
      one way or the other. */
  lemma CrossMeans(g: Grid, i: nat, j: nat)
    requires Searchable(g) && i < |g| && j < Width(g)
    ensures Cross(g, i, j) <= 1
    ensures Cross(g, i, j) == 1 <==>
      i + 2 < |g| && j + 2 < Width(g)
      && MasOrSam(g[i][j], g[i + 1][j + 1], g[i + 2][j + 2])
      && MasOrSam(g[i][j + 2], g[i + 1][j + 1], g[i + 2][j])
  {
    if i + 2 < |g| && j + 2 < Width(g) {
      var a, b, c := g[i][j], g[i + 1][j + 1], g[i + 2][j + 2];
      var d, f := g[i][j + 2], g[i + 2][j];
      assert MasOrSam(a, b, c) <==> (a == 'M' && b == 'A' && c == 'S') || (a == 'S' && b == 'A' && c == 'M');
      assert MasOrSam(d, b, f) <==> (d == 'M' && b == 'A' && f == 'S') || (d == 'S' && b == 'A' && f == 'M');
    }
  }

  // ---------------------------------------------------------------------------------------
  // The totals (lines 40-156)

  /** The part-1 (`cross == false`) or part-2 score of cell (i, j). */
  function Score(g: Grid, i: nat, j: nat, cross: bool): nat
    requires Searchable(g) && i < |g| && j < Width(g)
  {
    if cross then Cross(g, i, j) else Straight(g, i, j) + Diagonals(g, i, j)
  }

  /** The scores of the first `j` cells of row `i`. */
  function RowScore(g: Grid, i: nat, j: nat, cross: bool): nat
    requires Searchable(g) && i < |g| && j <= Width(g)
  {
    if j == 0 then 0 else RowScore(g, i, j - 1, cross) + Score(g, i, j - 1, cross)
  }

  /** The scores of the first `i` rows. */
  function GridScore(g: Grid, i: nat, cross: bool): nat
    requires Searchable(g) && i <= |g|
  {
    if i == 0 then 0 else GridScore(g, i - 1, cross) + RowScore(g, i - 1, Width(g), cross)
  }

  /** The most one cell can score: four straight readings and one per diagonal in part 1, one
      cross in part 2. */
  function MaxScore(cross: bool): nat
  {
    if cross then 1 else 6
  }

  /** Every cell scores at most `MaxScore`, so the totals are bounded by the cell count. */
  lemma {:induction false} GridScoreBound(g: Grid, i: nat, cross: bool)
    requires Searchable(g) && i <= |g|
    ensures GridScore(g, i, cross) <= i * (MaxScore(cross) * Width(g))
  {
    if i > 0 {
      var m := MaxScore(cross) * Width(g);
      GridScoreBound(g, i - 1, cross);
      RowScoreBound(g, i - 1, Width(g), cross);
      assert (i - 1) * m + m == i * m;
    }
  }

  lemma {:induction false} RowScoreBound(g: Grid, i: nat, j: nat, cross: bool)
    requires Searchable(g) && i < |g| && j <= Width(g)
    ensures RowScore(g, i, j, cross) <= MaxScore(cross) * j
  {
    if j > 0 {
      RowScoreBound(g, i, j - 1, cross);
      DiagonalsRead(g, i, j - 1);
      CrossMeans(g, i, j - 1);
    }
  }

  /** The nested loops of `main`: `total` and `p2_total` summed over the cells in row-major
      order. */
  method Search(table: Grid) returns (total: nat, p2Total: nat)
    requires Searchable(table)
    ensures total == GridScore(table, |table|, false)
    ensures p2Total == GridScore(table, |table|, true)
  {
    var rows, columns := |table|, Width(table);
    total, p2Total := 0, 0;
    var i := 0;
    while i < rows
      invariant 0 <= i <= rows
      invariant total == GridScore(table, i, false) && p2Total == GridScore(table, i, true)
    {
      var j := 0;
      while j < columns
        invariant 0 <= j <= columns
        invariant total == GridScore(table, i, false) + RowScore(table, i, j, false)
        invariant p2Total == GridScore(table, i, true) + RowScore(table, i, j, true)
      {
        if j < columns - 3 && Check(table[i][j], table[i][j + 1], table[i][j + 2], table[i][j + 3]) {
          total := total + 1;
        }
        if j < columns - 3 && Check(table[i][j + 3], table[i][j + 2], table[i][j + 1], table[i][j]) {
          total := total + 1;
        }
        if i < rows - 3 && Check(table[i][j], table[i + 1][j], table[i + 2][j], table[i + 3][j]) {
          total := total + 1;
        }
        if i < rows - 3 && Check(table[i + 3][j], table[i + 2][j], table[i + 1][j], table[i][j]) {
          total := total + 1;
        }
        if i < rows - 3 && j < columns - 3 {
          if Check(table[i][j], table[i + 1][j + 1], table[i + 2][j + 2], table[i + 3][j + 3])
            || Check(table[i + 3][j + 3], table[i + 2][j + 2], table[i + 1][j + 1], table[i][j])
          {
            total := total + 1;
          }
          if Check(table[i][j + 3], table[i + 1][j + 2], table[i + 2][j + 1], table[i + 3][j])
            || Check(table[i + 3][j], table[i + 2][j + 1], table[i + 1][j + 2], table[i][j + 3])
          {
            total := total + 1;
          }
        }
        if i < rows - 2 && j < columns - 2 {
          if P2Check("MAS", "MAS", table, i, j) || P2Check("SAM", "SAM", table, i, j)
            || P2Check("MAS", "SAM", table, i, j) || P2Check("SAM", "MAS", table, i, j)
          {
            p2Total := p2Total + 1;
          }
        }
        var next := j + 1;
        RowScoreNext(table, i, j, next);
        j := next;
      }
      var nextRow := i + 1;
      GridScoreNext(table, i, nextRow);
      i := nextRow;
    }
  }

  lemma {:induction false} RowScoreNext(g: Grid, i: nat, j: nat, next: nat)
    requires Searchable(g) && i < |g| && next == j + 1 <= Width(g)
    ensures RowScore(g, i, next, false) == RowScore(g, i, j, false) + Straight(g, i, j) + Diagonals(g, i, j)
    ensures RowScore(g, i, next, true) == RowScore(g, i, j, true) + Cross(g, i, j)
  {
    assert next - 1 == j;
  }

  lemma {:induction false} GridScoreNext(g: Grid, i: nat, next: nat)
    requires Searchable(g) && next == i + 1 <= |g|
    ensures GridScore(g, next, false) == GridScore(g, i, false) + RowScore(g, i, Width(g), false)
    ensures GridScore(g, next, true) == GridScore(g, i, true) + RowScore(g, i, Width(g), true)
  {
    assert next - 1 == i;
  }

  // ---------------------------------------------------------------------------------------
  // Every reading counted once

  function Hit(g: Grid, r: int, c: int, dr: int, dc: int): nat
    requires Searchable(g)
  {
    One(Reads(g, r, c, dr, dc))
  }

  /** Readings in direction (dr, dc) that start in row `r`, columns `lo` to `hi - 1`. */
  function Line(g: Grid, dr: int, dc: int, r: int, lo: int, hi: int): nat
    requires Searchable(g)
    decreases hi - lo
  {
    if hi <= lo then 0 else Line(g, dr, dc, r, lo, hi - 1) + Hit(g, r, hi - 1, dr, dc)
  }

  /** Readings in direction (dr, dc) that start in rows `rlo` to `rhi - 1`, columns `clo` to
      `chi - 1`. */
  function Rect(g: Grid, dr: int, dc: int, rlo: int, rhi: int, clo: int, chi: int): nat
    requires Searchable(g)
    decreases rhi - rlo
  {
    if rhi <= rlo then 0 else Rect(g, dr, dc, rlo, rhi - 1, clo, chi) + Line(g, dr, dc, rhi - 1, clo, chi)
  }

  /** Readings in direction (dr, dc) from any cell. */
  function DirectionCount(g: Grid, dr: int, dc: int): nat
    requires Searchable(g)
  {
    Rect(g, dr, dc, 0, |g|, 0, Width(g))
  }

  /** The number of (start cell, direction) pairs, over the eight directions, from which
      "XMAS" can be read inside the grid. */
  function Occurrences(g: Grid): nat
    requires Searchable(g)
  {
    DirectionCount(g, 0, 1) + DirectionCount(g, 0, -1) + DirectionCount(g, 1, 0) + DirectionCount(g, -1, 0)
    + DirectionCount(g, 1, 1) + DirectionCount(g, -1, -1) + DirectionCount(g, 1, -1) + DirectionCount(g, -1, 1)
  }

  /** The part-1 total counts every occurrence of "XMAS", in every direction, exactly once. */
  lemma {:induction false} EveryReadingOnce(g: Grid)
    requires Searchable(g)
    ensures GridScore(g, |g|, false) == Occurrences(g)
  {
    GridScoreReadings(g, |g|);
    ReadingsOccurrences(g);
  }

  lemma {:induction false} ReadingsOccurrences(g: Grid)
    requires Searchable(g)
    ensures GridReadings(g, |g|) == Occurrences(g)
  {
    RectShift(g, 0, 1, 0, 0);
    RectShift(g, 0, -1, 0, 3);
    RectShift(g, 1, 0, 0, 0);
    RectShift(g, -1, 0, 3, 0);
    RectShift(g, 1, 1, 0, 0);
    RectShift(g, -1, -1, 3, 3);
    RectShift(g, 1, -1, 0, 3);
    RectShift(g, -1, 1, 3, 0);
  }

  /** The readings the eight tests of the first `j` cells of row `i` count, per direction: a
      test at cell (i, j) with offset (oi, oj) counts a reading from (i + oi, j + oj). */
  function RowReadings(g: Grid, i: int, j: int): nat
    requires Searchable(g)
  {
    Line(g, 0, 1, i, 0, j) + Line(g, 0, -1, i, 3, j + 3) + Line(g, 1, 0, i, 0, j) + Line(g, -1, 0, i + 3, 0, j)
    + Line(g, 1, 1, i, 0, j) + Line(g, -1, -1, i + 3, 3, j + 3) + Line(g, 1, -1, i, 3, j + 3) + Line(g, -1, 1, i + 3, 0, j)
  }

  function GridReadings(g: Grid, i: int): nat
    requires Searchable(g)
  {
    var w := Width(g);
    Rect(g, 0, 1, 0, i, 0, w) + Rect(g, 0, -1, 0, i, 3, w + 3) + Rect(g, 1, 0, 0, i, 0, w) + Rect(g, -1, 0, 3, i + 3, 0, w)
    + Rect(g, 1, 1, 0, i, 0, w) + Rect(g, -1, -1, 3, i + 3, 3, w + 3) + Rect(g, 1, -1, 0, i, 3, w + 3) + Rect(g, -1, 1, 3, i + 3, 0, w)
  }

  lemma {:induction false} RowScoreReadings(g: Grid, i: nat, j: nat)
    requires Searchable(g) && i < |g| && j <= Width(g)
    ensures RowScore(g, i, j, false) == RowReadings(g, i, j)
  {
    if j > 0 {
      RowScoreReadings(g, i, j - 1);
      StraightReads(g, i, j - 1);
      DiagonalsRead(g, i, j - 1);
    }
  }

  lemma {:induction false} GridScoreReadings(g: Grid, i: nat)
    requires Searchable(g) && i <= |g|
    ensures GridScore(g, i, false) == GridReadings(g, i)
  {
    if i > 0 {
      GridScoreReadings(g, i - 1);
      RowScoreReadings(g, i - 1, Width(g));
    }
  }

  /** No reading starts outside the grid's rows, nor in the top three rows going up. */
  lemma {:induction false} LineNoStart(g: Grid, dr: int, dc: int, r: int, lo: int, hi: int)
    requires Searchable(g) && (r < 0 || r >= |g| || (dr == -1 && r < 3))
    ensures Line(g, dr, dc, r, lo, hi) == 0
    decreases hi - lo
  {
    if lo < hi {
      LineNoStart(g, dr, dc, r, lo, hi - 1);
    }
  }

  /** No reading starts right of the grid, nor in the first three columns going left. */
  lemma {:induction false} LineNoColumn(g: Grid, dr: int, dc: int, r: int, lo: int, hi: int)
    requires Searchable(g) && (lo >= Width(g) || (dc == -1 && hi <= 3))
    ensures Line(g, dr, dc, r, lo, hi) == 0
    decreases hi - lo
  {
    if lo < hi {
      LineNoColumn(g, dr, dc, r, lo, hi - 1);
    }
  }

  lemma {:induction false} LineSplit(g: Grid, dr: int, dc: int, r: int, a: int, b: int, c: int)
    requires Searchable(g) && a <= b <= c
    ensures Line(g, dr, dc, r, a, c) == Line(g, dr, dc, r, a, b) + Line(g, dr, dc, r, b, c)
    decreases c - b
  {
    if b < c {
      LineSplit(g, dr, dc, r, a, b, c - 1);
    }
  }

  /** Columns shifted right by 3 count the same leftward readings. */
  lemma {:induction false} LineShift(g: Grid, dr: int, dc: int, r: int, oj: int)
    requires Searchable(g) && (oj == 0 || (oj == 3 && dc == -1))
    ensures Line(g, dr, dc, r, oj, Width(g) + oj) == Line(g, dr, dc, r, 0, Width(g))
  {
    var w := Width(g);
    if oj == 3 && w > 0 {
      LineSplit(g, dr, dc, r, 0, 3, w);
      LineNoColumn(g, dr, dc, r, 0, 3);
      LineSplit(g, dr, dc, r, 3, w, w + 3);
      LineNoColumn(g, dr, dc, r, w, w + 3);
    }
  }

  lemma {:induction false} RectColumns(g: Grid, dr: int, dc: int, rlo: int, rhi: int, oj: int)
    requires Searchable(g) && (oj == 0 || (oj == 3 && dc == -1))
    ensures Rect(g, dr, dc, rlo, rhi, oj, Width(g) + oj) == Rect(g, dr, dc, rlo, rhi, 0, Width(g))
    decreases rhi - rlo
  {
    if rlo < rhi {
      RectColumns(g, dr, dc, rlo, rhi - 1, oj);
      LineShift(g, dr, dc, rhi - 1, oj);
    }
  }

  lemma {:induction false} RectSplit(g: Grid, dr: int, dc: int, a: int, b: int, c: int, clo: int, chi: int)
    requires Searchable(g) && a <= b <= c
    ensures Rect(g, dr, dc, a, c, clo, chi) == Rect(g, dr, dc, a, b, clo, chi) + Rect(g, dr, dc, b, c, clo, chi)
    decreases c - b
  {
    if b < c {
      RectSplit(g, dr, dc, a, b, c - 1, clo, chi);
    }
  }

  lemma {:induction false} RectNoStart(g: Grid, dr: int, dc: int, rlo: int, rhi: int, clo: int, chi: int)
    requires Searchable(g) && (rlo >= |g| || (dr == -1 && rhi <= 3) || clo >= Width(g))
    ensures Rect(g, dr, dc, rlo, rhi, clo, chi) == 0
    decreases rhi - rlo
  {
    if rlo < rhi {
      RectNoStart(g, dr, dc, rlo, rhi - 1, clo, chi);
      if clo >= Width(g) {
        LineNoColumn(g, dr, dc, rhi - 1, clo, chi);
      } else {
        LineNoStart(g, dr, dc, rhi - 1, clo, chi);
      }
    }
  }

  /** Shifting the start cells by 3 towards a negative step count the same readings. */
  lemma {:induction false} RectShift(g: Grid, dr: int, dc: int, oi: int, oj: int)
    requires Searchable(g)
    requires oi == 0 || (oi == 3 && dr == -1)
    requires oj == 0 || (oj == 3 && dc == -1)
    ensures Rect(g, dr, dc, oi, |g| + oi, oj, Width(g) + oj) == DirectionCount(g, dr, dc)
  {
    var rows, w := |g|, Width(g);
    RectColumns(g, dr, dc, oi, rows + oi, oj);
    if oi == 3 {
      if w == 0 {
        RectNoStart(g, dr, dc, 3, rows + 3, 0, 0);
        RectNoStart(g, dr, dc, 0, rows, 0, 0);
      } else {
        RectSplit(g, dr, dc, 0, 3, rows, 0, w);
        RectNoStart(g, dr, dc, 0, 3, 0, w);
        RectSplit(g, dr, dc, 3, rows, rows + 3, 0, w);
        RectNoStart(g, dr, dc, rows, rows + 3, 0, w);
      }
    }
  }
}
