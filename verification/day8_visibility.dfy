/** Day 8, what the count means: on a grid whose rows are all full, the flags
    left by the four kinds of sweep, with the column sweeps stepping by the
    width, are exactly the trees visible from outside the grid. With the
    stride the program uses, the grid's height, that holds only for square
    grids. */
module Day8Visibility {
  import opened Results
  import opened Seqs
  import opened Day8

  /** Row-major position `row * width + col` lies inside the first `width * height`. */
  lemma CellFits(g: Grid, row: nat, col: nat)
    requires row < g.height && col < g.width
    ensures row * g.width + col < g.width * g.height
  {
    MulLe(row + 1, g.height, g.width);
  }

  /** Two cells of a row-major grid with the same position are the same cell. */
  lemma CellUnique(w: nat, r1: nat, c1: nat, r2: nat, c2: nat)
    requires c1 < w && c2 < w && r1 * w + c1 == r2 * w + c2
    ensures r1 == r2 && c1 == c2
  {
    if r1 < r2 {
      MulLe(r1 + 1, r2, w);
      assert false;
    } else if r2 < r1 {
      MulLe(r2 + 1, r1, w);
      assert false;
    }
  }

  /** The row-major position of row `row`, column `col`. */
  function Cell(g: Grid, row: nat, col: nat): (i: nat)
    requires row < g.height && col < g.width
    ensures i < g.width * g.height
  {
    CellFits(g, row, col);
    row * g.width + col
  }

  /** The height of the tree in row `row`, column `col`. */
  function Tree(g: Grid, row: nat, col: nat): nat
    requires Covered(g) && row < g.height && col < g.width
  {
    g.heights[Cell(g, row, col)]
  }

  predicate FromLeft(g: Grid, row: nat, col: nat)
    requires Covered(g) && row < g.height && col < g.width
  {
    forall c :: 0 <= c < col ==> Tree(g, row, c) < Tree(g, row, col)
  }

  predicate FromRight(g: Grid, row: nat, col: nat)
    requires Covered(g) && row < g.height && col < g.width
  {
    forall c :: col < c < g.width ==> Tree(g, row, c) < Tree(g, row, col)
  }

  predicate FromTop(g: Grid, row: nat, col: nat)
    requires Covered(g) && row < g.height && col < g.width
  {
    forall r :: 0 <= r < row ==> Tree(g, r, col) < Tree(g, row, col)
  }

  predicate FromBottom(g: Grid, row: nat, col: nat)
    requires Covered(g) && row < g.height && col < g.width
  {
    forall r :: row < r < g.height ==> Tree(g, r, col) < Tree(g, row, col)
  }

  /** Every tree between this one and some edge of the grid, in a straight
      line, is strictly shorter. */
  predicate VisibleFromOutside(g: Grid, row: nat, col: nat)
    requires Covered(g) && row < g.height && col < g.width
  {
    FromLeft(g, row, col) || FromRight(g, row, col) || FromTop(g, row, col) || FromBottom(g, row, col)
  }

  /** Positions `start + k * step` for different `k` are different. */
  lemma SteppedDistinct(start: nat, step: nat, count: nat)
    requires step > 0
    ensures Distinct(Stepped(start, step, count))
  {
    forall i, j | 0 <= i < j < count
      ensures start + i * step != start + j * step
    {
      MulLe(i + 1, j, step);
    }
  }

  /** Sweeping a row from the left marks the trees visible from the left. */
  lemma TallerFromLeft(g: Grid, row: nat, col: nat)
    requires Covered(g) && row < g.height && col < g.width
    ensures Taller(Along(g.heights, RowPath(g, row)), col) <==> FromLeft(g, row, col)
  {
    var trees := Along(g.heights, RowPath(g, row));
    assert forall c :: 0 <= c < g.width ==> trees[c] == Tree(g, row, c);
  }

  /** Sweeping a row from the right marks the trees visible from the right. */
  lemma TallerFromRight(g: Grid, row: nat, col: nat)
    requires Covered(g) && row < g.height && col < g.width
    ensures TallerThanLater(Along(g.heights, RowPath(g, row)), col) <==> FromRight(g, row, col)
  {
    var trees := Along(g.heights, RowPath(g, row));
    assert forall c :: 0 <= c < g.width ==> trees[c] == Tree(g, row, c);
  }

  /** After both sweeps of row `row`, a flag in that row is set exactly when it
      was set before or its tree is visible from the left or from the right. */
  lemma SweepRowAt(g: Grid, flags: seq<bool>, row: nat, col: nat)
    requires Covered(g) && |flags| == g.width * g.height && row < g.height && col < g.width
    ensures SweepRow(g, flags, row)[Cell(g, row, col)] == (flags[Cell(g, row, col)] || FromLeft(g, row, col) || FromRight(g, row, col))
  {
    var path := RowPath(g, row);
    assert Distinct(path);
    assert path[col] == Cell(g, row, col);
    SweepBothWaysAt(Along(g.heights, path), flags, path, col);
    TallerFromLeft(g, row, col);
    TallerFromRight(g, row, col);
  }

  /** The sweeps of row `row` leave the flags of other rows alone. */
  lemma SweepRowElsewhere(g: Grid, flags: seq<bool>, row: nat, r: nat, c: nat)
    requires Covered(g) && |flags| == g.width * g.height && row < g.height && r < g.height && c < g.width
    requires r != row
    ensures SweepRow(g, flags, row)[Cell(g, r, c)] == flags[Cell(g, r, c)]
  {
    var path := RowPath(g, row);
    var p := Cell(g, r, c);
    forall k | 0 <= k < |path|
      ensures path[k] != p
    {
      if path[k] == p {
        CellUnique(g.width, row, k, r, c);
      }
    }
    SweepBothWaysElsewhere(Along(g.heights, path), flags, path, p);
  }

  /** The row loop from row `row` on sets a flag exactly when it was set or
      its tree, in a row not yet passed, is visible from the left or right. */
  lemma {:induction false} RowSweepsAt(g: Grid, flags: seq<bool>, row: nat, r: nat, c: nat)
    requires Covered(g) && |flags| == g.width * g.height && r < g.height && c < g.width
    ensures RowSweeps(g, flags, row)[Cell(g, r, c)] == (flags[Cell(g, r, c)] || (row <= r && (FromLeft(g, r, c) || FromRight(g, r, c))))
    decreases g.height - row
  {
    if row < g.height {
      SweepRowStep(g, flags, row, r, c);
      RowSweepsAt(g, SweepRow(g, flags, row), row + 1, r, c);
    }
  }

  lemma SweepRowStep(g: Grid, flags: seq<bool>, row: nat, r: nat, c: nat)
    requires Covered(g) && |flags| == g.width * g.height && row < g.height && r < g.height && c < g.width
    ensures SweepRow(g, flags, row)[Cell(g, r, c)] == (flags[Cell(g, r, c)] || (r == row && (FromLeft(g, r, c) || FromRight(g, r, c))))
  {
    if r == row {
      SweepRowAt(g, flags, row, c);
    } else {
      SweepRowElsewhere(g, flags, row, r, c);
    }
  }


  /** A grid with at least one row and exactly `width * height` trees. */
  predicate Full(g: Grid) {
    g.height > 0 && |g.heights| == g.width * g.height
  }

  /** `step_by(width)` from column `col` takes exactly `height` steps. */
  lemma StepCountOfColumn(w: nat, h: nat, col: nat)
    requires col < w && h > 0
    ensures w * h - col > 0 && StepCount(w * h - col, w) == h
  {
    MulLe(1, h, w);
    assert w * h - col - 1 == (h - 1) * w + (w - 1 - col);
    DivUnique(w * h - col - 1, w, h - 1, w - 1 - col);
  }

  /** A column sweep visits the cells of column `col`, top to bottom, for the
      heights and for the flags alike. */
  lemma ColumnPath(g: Grid, col: nat)
    requires Full(g) && col < g.width
    ensures ColumnTrees(g, col, g.width) == ColumnFlags(g, col, g.width)
    ensures |ColumnFlags(g, col, g.width)| == g.height
    ensures forall k :: 0 <= k < g.height ==> ColumnFlags(g, col, g.width)[k] == Cell(g, k, col)
  {
    StepCountOfColumn(g.width, g.height, col);
  }

  lemma ColumnPathAt(g: Grid, col: nat, row: nat)
    requires Full(g) && row < g.height && col < g.width
    ensures Distinct(ColumnFlags(g, col, g.width))
    ensures |Along(g.heights, ColumnTrees(g, col, g.width))| == |ColumnFlags(g, col, g.width)| == g.height
    ensures ColumnFlags(g, col, g.width)[row] == Cell(g, row, col)
  {
    ColumnPath(g, col);
    SteppedDistinct(col, g.width, g.height);
  }

  /** The heights a column sweep visits, top to bottom. */
  lemma ColumnTreesAt(g: Grid, col: nat)
    requires Full(g) && col < g.width
    ensures |Along(g.heights, ColumnTrees(g, col, g.width))| == g.height
    ensures forall r :: 0 <= r < g.height ==> Along(g.heights, ColumnTrees(g, col, g.width))[r] == Tree(g, r, col)
  {
    ColumnPath(g, col);
  }

  /** Sweeping a column from the top marks the trees visible from the top. */
  lemma TallerFromTop(g: Grid, row: nat, col: nat)
    requires Full(g) && row < g.height && col < g.width
    ensures |Along(g.heights, ColumnTrees(g, col, g.width))| == g.height
    ensures Taller(Along(g.heights, ColumnTrees(g, col, g.width)), row) <==> FromTop(g, row, col)
  {
    ColumnTreesAt(g, col);
  }

  /** Sweeping a column from the bottom marks the trees visible from the bottom. */
  lemma TallerFromBottom(g: Grid, row: nat, col: nat)
    requires Full(g) && row < g.height && col < g.width
    ensures |Along(g.heights, ColumnTrees(g, col, g.width))| == g.height
    ensures TallerThanLater(Along(g.heights, ColumnTrees(g, col, g.width)), row) <==> FromBottom(g, row, col)
  {
    ColumnTreesAt(g, col);
  }

  /** After both sweeps of column `col`, a flag in that column
      is set exactly when it was set before or its tree is visible from the top
      or from the bottom. */
  lemma SweepColumnAt(g: Grid, flags: seq<bool>, col: nat, row: nat)
    requires Full(g) && |flags| == g.width * g.height && row < g.height && col < g.width
    ensures SweepColumn(g, flags, col, g.width)[Cell(g, row, col)] == (flags[Cell(g, row, col)] || FromTop(g, row, col) || FromBottom(g, row, col))
  {
    var trees, path := Along(g.heights, ColumnTrees(g, col, g.width)), ColumnFlags(g, col, g.width);
    ColumnPathAt(g, col, row);
    var p := Cell(g, row, col);
    assert SweepColumn(g, flags, col, g.width) == SweepBothWays(trees, flags, path);
    assert SweepBothWays(trees, flags, path)[p] == (flags[p] || Taller(trees, row) || TallerThanLater(trees, row)) by {
      SweepBothWaysAt(trees, flags, path, row);
    }
    assert Taller(trees, row) <==> FromTop(g, row, col) by {
      TallerFromTop(g, row, col);
    }
    assert TallerThanLater(trees, row) <==> FromBottom(g, row, col) by {
      TallerFromBottom(g, row, col);
    }
  }

  /** The sweeps of column `col` leave the flags of other columns alone. */
  lemma SweepColumnElsewhere(g: Grid, flags: seq<bool>, col: nat, r: nat, c: nat)
    requires Full(g) && |flags| == g.width * g.height && col < g.width && r < g.height && c < g.width
    requires c != col
    ensures SweepColumn(g, flags, col, g.width)[Cell(g, r, c)] == flags[Cell(g, r, c)]
  {
    ColumnPath(g, col);
    var path := ColumnFlags(g, col, g.width);
    var p := Cell(g, r, c);
    forall k | 0 <= k < |path|
      ensures path[k] != p
    {
      if path[k] == p {
        CellUnique(g.width, k, col, r, c);
      }
    }
    SweepBothWaysElsewhere(Along(g.heights, ColumnTrees(g, col, g.width)), flags, path, p);
  }

  /** The column loop from column `col` on sets a flag exactly when it was set
      or its tree, in a column not yet passed, is visible from the top or bottom. */
  lemma {:induction false} ColumnSweepsAt(g: Grid, flags: seq<bool>, col: nat, r: nat, c: nat)
    requires Full(g) && |flags| == g.width * g.height && r < g.height && c < g.width
    ensures ColumnSweeps(g, flags, col, g.width)[Cell(g, r, c)] == (flags[Cell(g, r, c)] || (col <= c && (FromTop(g, r, c) || FromBottom(g, r, c))))
    decreases g.width - col
  {
    if col < g.width {
      SweepColumnStep(g, flags, col, r, c);
      ColumnSweepsAt(g, SweepColumn(g, flags, col, g.width), col + 1, r, c);
    }
  }

  lemma SweepColumnStep(g: Grid, flags: seq<bool>, col: nat, r: nat, c: nat)
    requires Full(g) && |flags| == g.width * g.height && col < g.width && r < g.height && c < g.width
    ensures SweepColumn(g, flags, col, g.width)[Cell(g, r, c)] == (flags[Cell(g, r, c)] || (c == col && (FromTop(g, r, c) || FromBottom(g, r, c))))
  {
    if c == col {
      SweepColumnAt(g, flags, col, r);
    } else {
      SweepColumnElsewhere(g, flags, col, r, c);
    }
  }


  /** The flag of a tree is set after all the sweeps exactly
      when the tree is visible from outside the grid. */
  lemma FlagsAt(g: Grid, row: nat, col: nat)
    requires Full(g) && row < g.height && col < g.width
    ensures Flags(g, g.width)[Cell(g, row, col)] == VisibleFromOutside(g, row, col)
  {
    var none := seq(g.width * g.height, _ => false);
    RowSweepsAt(g, none, 0, row, col);
    ColumnSweepsAt(g, RowSweeps(g, none, 0), 0, row, col);
  }

  /** Trees on the edge of the grid are always counted. */
  lemma PerimeterCounted(g: Grid, row: nat, col: nat)
    requires Full(g) && row < g.height && col < g.width
    requires row == 0 || row == g.height - 1 || col == 0 || col == g.width - 1
    ensures Flags(g, g.width)[Cell(g, row, col)]
  {
    FlagsAt(g, row, col);
  }

  /** Which trees of row `row` are visible from outside the grid. */
  function RowVisibility(g: Grid, row: nat): (r: seq<bool>)
    requires Covered(g) && row < g.height
    ensures |r| == g.width
    ensures forall c :: 0 <= c < g.width ==> r[c] == VisibleFromOutside(g, row, c)
  {
    seq(g.width, c requires 0 <= c < g.width => VisibleFromOutside(g, row, c))
  }

  /** The rows laid end to end. */
  function Flatten<T>(rows: seq<seq<T>>): seq<T> {
    if rows == [] then [] else rows[0] + Flatten(rows[1..])
  }

  /** When every row has `w` items, item `c` of row `r` sits at `r * w + c`. */
  lemma {:induction false} FlattenAt<T>(rows: seq<seq<T>>, w: nat, r: nat, c: nat, i: nat)
    requires forall k :: 0 <= k < |rows| ==> |rows[k]| == w
    requires r < |rows| && c < w && i == r * w + c
    ensures i < |Flatten(rows)| && Flatten(rows)[i] == rows[r][c]
    decreases r
  {
    if r > 0 {
      NextRowIndex(i, 0, r, w, c);
      FlattenAt(rows[1..], w, r - 1, c, i - w);
      IndexAfter(rows[0], Flatten(rows[1..]), i - w);
    }
  }

  lemma {:induction false} FlattenLength<T>(rows: seq<seq<T>>, w: nat)
    requires forall k :: 0 <= k < |rows| ==> |rows[k]| == w
    ensures |Flatten(rows)| == |rows| * w
  {
    if rows != [] {
      FlattenLength(rows[1..], w);
      RowSplit(|rows|, w);
    }
  }

  lemma IndexAfter<T>(a: seq<T>, b: seq<T>, j: nat)
    requires j < |b|
    ensures (a + b)[|a| + j] == b[j]
  {
  }

  lemma NextRowIndex(i: nat, row: nat, r: nat, w: nat, c: nat)
    requires row < r && i == (r - row) * w + c
    ensures i >= w && i - w == (r - (row + 1)) * w + c
  {
    RowSplit(r - row, w);
  }

  /** Which trees are visible from outside the grid, row-major like the flags. */
  function Visibility(g: Grid): (r: seq<bool>)
    requires Covered(g)
    ensures |r| == g.width * g.height
  {
    var rows := seq(g.height, row requires 0 <= row < g.height => RowVisibility(g, row));
    FlattenLength(rows, g.width);
    Flatten(rows)
  }

  /** A position below `w * h` is row `row`, column `col` of a `w` by `h` grid. */
  lemma {:induction false} Decompose(i: nat, w: nat, h: nat) returns (row: nat, col: nat)
    requires i < w * h
    ensures row < h && col < w && i == row * w + col
    decreases h
  {
    if i < w {
      WidthFits(w, h);
      row, col := 0, i;
    } else {
      assert h > 0;
      RowSplit(h, w);
      var r, c := Decompose(i - w, w, h - 1);
      row, col := r + 1, c;
    }
  }

  /** The final flags are the visibility map. */
  lemma FlagsAreVisibility(g: Grid)
    requires Full(g)
    ensures Flags(g, g.width) == Visibility(g)
  {
    forall i | 0 <= i < g.width * g.height
      ensures Flags(g, g.width)[i] == Visibility(g)[i]
    {
      FlagIsVisibility(g, i);
    }
  }

  lemma FlagIsVisibility(g: Grid, i: nat)
    requires Full(g) && i < g.width * g.height
    ensures Flags(g, g.width)[i] == Visibility(g)[i]
  {
    var r, c := Decompose(i, g.width, g.height);
    assert Cell(g, r, c) == i;
    FlagsAt(g, r, c);
    var rows := seq(g.height, row requires 0 <= row < g.height => RowVisibility(g, row));
    FlattenAt(rows, g.width, r, c, i);
  }

  /** The corrected count is the number of trees visible from outside. */
  lemma CountIsVisible(g: Grid)
    requires Full(g)
    ensures Count(g) == Ok(CountTrue(Visibility(g)))
  {
    FlagsAreVisibility(g);
  }

  /** The whole program on a puzzle input: the number of trees visible from outside. */
  lemma Part1OfGrid(g: Grid)
    requires WellFormed(g)
    ensures Part1(Render(g.heights, g.width, g.height)) == Ok(CountTrue(Visibility(g)))
  {
    ParseRender(g);
    CountIsVisible(g);
  }

  /** On a square grid the count as written is right too. */
  lemma AsWrittenIsVisibleOnSquare(g: Grid)
    requires Full(g) && g.width == g.height
    ensures CountAsWritten(g) == Ok(CountTrue(Visibility(g)))
  {
    AsWrittenOnSquare(g);
    CountIsVisible(g);
  }

  // ----- The stride as written, on a grid that is not square -----

  /** Four trees wide and three rows tall. The tree in row 1, column 2 (height
      3) is hidden on all four sides by trees of height 5, but it is taller
      than the trees at positions 0 and 3, which a column sweep stepping by the
      height 3 visits before it. */
  function WideGrid(): Grid {
    Grid(4, 3, [0, 5, 5, 0, 5, 5, 3, 5, 5, 5, 5, 5])
  }

  /** The counterexample: with the stride as written the hidden tree is
      flagged, so the program counts a tree nobody can see. */
  lemma HeightStrideMarksHiddenTree()
    ensures Full(WideGrid()) && !VisibleFromOutside(WideGrid(), 1, 2)
    ensures Flags(WideGrid(), WideGrid().height)[Cell(WideGrid(), 1, 2)]
    ensures CountAsWritten(WideGrid()) != Ok(CountTrue(Visibility(WideGrid())))
  {
    var g := WideGrid();
    WideGridHidden();
    WideGridCountsEleven();
    WideGridShowsTen();
  }

  /** With the stride as written the wide grid counts eleven trees or more:
      every tree but the one in row 1, column 1 ends up flagged. */
  lemma WideGridCountsEleven()
    ensures Flags(WideGrid(), WideGrid().height)[Cell(WideGrid(), 1, 2)]
    ensures CountAsWritten(WideGrid()).Ok? && CountAsWritten(WideGrid()).value >= 11
  {
    var g := WideGrid();
    var flags := Flags(g, 3);
    forall i | 0 <= i < 12 && i != 5
      ensures flags[i]
    {
      if i == 6 || i == 9 || i == 10 {
        WideGridColumnFlags();
      } else {
        WideGridRowFlag(i / 4, i % 4);
      }
    }
    AllButOne(flags);
  }

  lemma AllButOne(flags: seq<bool>)
    requires |flags| == 12 && forall i :: 0 <= i < 12 && i != 5 ==> flags[i]
    ensures CountTrue(flags) >= 11
  {
    var lower := [true, true, true, true, true, false, true, true, true, true, true, true];
    CountTrueMonotone(lower, flags);
    assert CountTrue(lower) == 11;
  }

  lemma AllButTwo(flags: seq<bool>)
    requires |flags| == 12 && !flags[5] && !flags[6]
    ensures CountTrue(flags) <= 10
  {
    var upper := [true, true, true, true, true, false, false, true, true, true, true, true];
    CountTrueMonotone(flags, upper);
    assert CountTrue(upper) == 10;
  }

  /** The trees of the wide grid seen from the left or the right: the first
      and last column, and the two tall trees of row 0. */
  lemma WideGridRowFlag(r: nat, c: nat)
    requires r < 3 && c < 4 && (c == 0 || c == 3 || (r == 0 && c < 3))
    ensures Flags(WideGrid(), 3)[Cell(WideGrid(), r, c)]
  {
    var g := WideGrid();
    var none := seq(g.width * g.height, _ => false);
    var rows := RowSweeps(g, none, 0);
    var p := Cell(g, r, c);
    if c == 1 {
      assert Tree(g, 0, 0) == 0 && Tree(g, 0, 1) == 5;
      assert FromLeft(g, r, c);
    } else if c == 2 {
      assert Tree(g, 0, 3) == 0 && Tree(g, 0, 2) == 5;
      assert FromRight(g, r, c);
    }
    RowSweepsAt(g, none, 0, r, c);
    ColumnSweepsKeep(g, rows, 0, 3, p);
  }

  /** The column sweeps as written flag positions 6 and 9 from column 0 and
      position 10 from column 1. */
  lemma WideGridColumnFlags()
    ensures Flags(WideGrid(), 3)[6] && Flags(WideGrid(), 3)[9] && Flags(WideGrid(), 3)[10]
  {
    var g := WideGrid();
    var rows := RowSweeps(g, seq(g.width * g.height, _ => false), 0);
    var first := SweepColumn(g, rows, 0, 3);
    var second := SweepColumn(g, first, 1, 3);
    WideGridSweep(rows);
    WideGridSweepOne(first);
    SweepColumnKeeps(g, first, 1, 3, 6);
    SweepColumnKeeps(g, first, 1, 3, 9);
    ColumnSweepsKeep(g, second, 2, 3, 6);
    ColumnSweepsKeep(g, second, 2, 3, 9);
    ColumnSweepsKeep(g, second, 2, 3, 10);
    assert Flags(g, 3) == ColumnSweeps(g, second, 2, 3);
  }

  /** No more than ten trees of the wide grid are visible from outside: the
      two middle trees of row 1 are hidden. */
  lemma WideGridShowsTen()
    ensures CountTrue(Visibility(WideGrid())) <= 10
  {
    var g := WideGrid();
    var v := Visibility(g);
    WideGridHidden();
    assert !VisibleFromOutside(g, 1, 1) by {
      assert Tree(g, 1, 1) == 5 && Tree(g, 1, 0) == 5 && Tree(g, 1, 3) == 5;
      assert Tree(g, 0, 1) == 5 && Tree(g, 2, 1) == 5;
    }
    FlagIsVisibility(g, 5);
    FlagsAt(g, 1, 1);
    FlagIsVisibility(g, 6);
    FlagsAt(g, 1, 2);
    AllButTwo(v);
  }

  lemma WideGridHidden()
    ensures Full(WideGrid()) && !VisibleFromOutside(WideGrid(), 1, 2)
  {
    var g := WideGrid();
    assert Tree(g, 1, 2) == 3;
    assert Tree(g, 1, 1) == 5 && Tree(g, 1, 3) == 5 && Tree(g, 0, 2) == 5 && Tree(g, 2, 2) == 5;
  }

  /** The first column sweep of the wide grid, stepping by 3, visits
      positions 0, 3, 6 and 9 and flags position 6. */
  lemma WideGridSweep(flags: seq<bool>)
    requires |flags| == 12
    ensures SweepColumn(WideGrid(), flags, 0, 3)[6] && SweepColumn(WideGrid(), flags, 0, 3)[9]
  {
    var g := WideGrid();
    var path := ColumnFlags(g, 0, 3);
    WideGridPath();
    var trees := Along(g.heights, path);
    assert trees == [0, 0, 3, 5];
    SteppedDistinct(0, 3, 4);
    SweepBothWaysAt(trees, flags, path, 2);
    assert Taller(trees, 2);
    SweepBothWaysAt(trees, flags, path, 3);
    assert Taller(trees, 3);
  }

  /** The second column sweep of the wide grid visits positions 1, 4, 7 and
      10, all of height 5, and flags position 10 from the bottom. */
  lemma WideGridSweepOne(flags: seq<bool>)
    requires |flags| == 12
    ensures SweepColumn(WideGrid(), flags, 1, 3)[10]
  {
    var g := WideGrid();
    var path := ColumnFlags(g, 1, 3);
    assert StepCount(11, 3) == 4;
    assert path == [1, 4, 7, 10] == Stepped(1, 3, 4);
    assert ColumnTrees(g, 1, 3) == path;
    var trees := Along(g.heights, path);
    assert trees == [5, 5, 5, 5];
    SteppedDistinct(1, 3, 4);
    SweepBothWaysAt(trees, flags, path, 3);
    assert TallerThanLater(trees, 3);
  }

  lemma WideGridPath()
    ensures ColumnFlags(WideGrid(), 0, 3) == [0, 3, 6, 9] == Stepped(0, 3, 4)
    ensures ColumnTrees(WideGrid(), 0, 3) == [0, 3, 6, 9]
  {
    assert StepCount(12, 3) == 4;
  }

  /** Later column sweeps never clear a flag. */
  lemma {:induction false} ColumnSweepsKeep(g: Grid, flags: seq<bool>, col: nat, step: nat, p: nat)
    requires Covered(g) && |flags| == g.width * g.height
    requires (step > 0 || g.width == 0) && (g.height > 0 || g.width <= 1)
    requires p < |flags| && flags[p]
    ensures ColumnSweeps(g, flags, col, step)[p]
    decreases g.width - col
  {
    if col < g.width {
      SweepColumnKeeps(g, flags, col, step, p);
      ColumnSweepsKeep(g, SweepColumn(g, flags, col, step), col + 1, step, p);
    }
  }

  lemma SweepColumnKeeps(g: Grid, flags: seq<bool>, col: nat, step: nat, p: nat)
    requires Covered(g) && |flags| == g.width * g.height && col < g.width && step > 0
    requires g.height > 0 || col == 0
    requires p < |flags| && flags[p]
    ensures SweepColumn(g, flags, col, step)[p]
  {
    WidthFits(g.width, g.height);
    var trees, path := Along(g.heights, ColumnTrees(g, col, step)), ColumnFlags(g, col, step);
    UpdateKeeps(trees, flags, path, p);
    UpdateKeeps(Reverse(trees), Update(trees, flags, path), Reverse(path), p);
  }
}
