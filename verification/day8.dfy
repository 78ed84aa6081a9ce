/** Day 8: a tree is visible from outside the grid when every tree between it
    and an edge, in one of the four directions, is strictly shorter. The
    program sweeps each row and each column from both ends, marking every tree
    taller than all the trees before it in the sweep, and counts the marks. */
module Day8 {
  import opened Results
  import opened Seqs
  import opened Text

  /** Every index of `path` is a valid position of a sequence of length `n`. */
  predicate InBounds(path: seq<nat>, n: nat) {
    forall k :: 0 <= k < |path| ==> path[k] < n
  }

  predicate Distinct(path: seq<nat>) {
    forall i, j :: 0 <= i < j < |path| ==> path[i] != path[j]
  }

  /** The tree at position `k` of a sweep is strictly taller than every tree
      the sweep passed before it. */
  predicate Taller(trees: seq<nat>, k: nat)
    requires k < |trees|
  {
    forall j :: 0 <= j < k ==> trees[j] < trees[k]
  }

  /** The tree at position `k` is strictly taller than every tree after it. */
  predicate TallerThanLater(trees: seq<nat>, k: nat)
    requires k < |trees|
  {
    forall j :: k < j < |trees| ==> trees[j] < trees[k]
  }

  /** Sweeping the reversed sequence finds the trees taller than all later ones. */
  lemma TallerReversed(trees: seq<nat>, k: nat)
    requires k < |trees|
    ensures Taller(Reverse(trees), |trees| - 1 - k) <==> TallerThanLater(trees, k)
  {
    if Taller(Reverse(trees), |trees| - 1 - k) {
      TallerOfReversed(trees, k);
    }
    if TallerThanLater(trees, k) {
      ReversedOfTaller(trees, k);
    }
  }

  lemma TallerOfReversed(trees: seq<nat>, k: nat)
    requires k < |trees| && Taller(Reverse(trees), |trees| - 1 - k)
    ensures TallerThanLater(trees, k)
  {
    var rev, n := Reverse(trees), |trees|;
    forall j | k < j < n
      ensures trees[j] < trees[k]
    {
      assert rev[n - 1 - j] == trees[j];
    }
  }

  lemma ReversedOfTaller(trees: seq<nat>, k: nat)
    requires k < |trees| && TallerThanLater(trees, k)
    ensures Taller(Reverse(trees), |trees| - 1 - k)
  {
    var rev, n := Reverse(trees), |trees|;
    forall i | 0 <= i < n - 1 - k
      ensures rev[i] < rev[n - 1 - k]
    {
      assert rev[i] == trees[n - 1 - i];
    }
  }

  /** The loop's test `last.is_none() || last.unwrap() < item`. */
  predicate Above(last: Option<nat>, item: nat) {
    last.None? || last.value < item
  }

  /** `update_visible_trees_in_sequence` from the point where the tallest tree
      seen so far is `last`: the heights `trees` are zipped with the flag
      positions `path`, so the shorter of the two ends the loop. */
  function UpdateFrom(trees: seq<nat>, path: seq<nat>, last: Option<nat>, flags: seq<bool>): (r: seq<bool>)
    requires InBounds(path, |flags|)
    ensures |r| == |flags|
    decreases |trees|
  {
    if trees == [] || path == [] then flags
    else if Above(last, trees[0]) then UpdateFrom(trees[1..], path[1..], Some(trees[0]), flags[path[0] := true])
    else UpdateFrom(trees[1..], path[1..], last, flags)
  }

  /** One call of `update_visible_trees_in_sequence`; `UpdateAt`,
      `UpdateKeeps` and `UpdateElsewhere` say what it does to each flag. */
  function Update(trees: seq<nat>, flags: seq<bool>, path: seq<nat>): (r: seq<bool>)
    requires InBounds(path, |flags|)
    ensures |r| == |flags|
  {
    UpdateFrom(trees, path, None, flags)
  }

  /** A sweep never clears a flag. */
  lemma {:induction false} UpdateFromKeeps(trees: seq<nat>, path: seq<nat>, last: Option<nat>, flags: seq<bool>, p: nat)
    requires InBounds(path, |flags|) && p < |flags| && flags[p]
    ensures UpdateFrom(trees, path, last, flags)[p]
    decreases |trees|
  {
    if trees != [] && path != [] {
      if Above(last, trees[0]) {
        UpdateFromKeeps(trees[1..], path[1..], Some(trees[0]), flags[path[0] := true], p);
      } else {
        UpdateFromKeeps(trees[1..], path[1..], last, flags, p);
      }
    }
  }

  /** A sweep leaves alone every flag it does not visit. */
  lemma {:induction false} UpdateFromElsewhere(trees: seq<nat>, path: seq<nat>, last: Option<nat>, flags: seq<bool>, p: nat)
    requires InBounds(path, |flags|) && p < |flags|
    requires forall k :: 0 <= k < |trees| && k < |path| ==> path[k] != p
    ensures UpdateFrom(trees, path, last, flags)[p] == flags[p]
    decreases |trees|
  {
    if trees != [] && path != [] {
      assert path[0] != p;
      assert forall k :: 0 <= k < |trees[1..]| && k < |path[1..]| ==> path[1..][k] == path[k + 1];
      if Above(last, trees[0]) {
        UpdateFromElsewhere(trees[1..], path[1..], Some(trees[0]), flags[path[0] := true], p);
      } else {
        UpdateFromElsewhere(trees[1..], path[1..], last, flags, p);
      }
    }
  }

  /** Along a path without repeated positions, the `k`-th visited flag ends up
      set exactly when it was already set or the `k`-th tree is above `last`
      and taller than every tree before it. */
  lemma {:induction false} UpdateFromAt(trees: seq<nat>, path: seq<nat>, last: Option<nat>, flags: seq<bool>, k: nat)
    requires InBounds(path, |flags|) && Distinct(path) && k < |trees| && k < |path|
    ensures UpdateFrom(trees, path, last, flags)[path[k]] == (flags[path[k]] || (Above(last, trees[k]) && Taller(trees, k)))
    decreases |trees|
  {
    var rest, along := trees[1..], path[1..];
    var p := path[k];
    assert forall j :: 0 <= j < |along| ==> along[j] == path[j + 1];
    if k == 0 {
      assert forall j :: 0 <= j < |rest| && j < |along| ==> along[j] != p;
      if Above(last, trees[0]) {
        UpdateFromKeeps(rest, along, Some(trees[0]), flags[p := true], p);
      } else {
        UpdateFromElsewhere(rest, along, last, flags, p);
      }
    } else {
      assert rest[k - 1] == trees[k] && along[k - 1] == p;
      assert p != path[0];
      if Above(last, trees[0]) {
        UpdateFromAt(rest, along, Some(trees[0]), flags[path[0] := true], k - 1);
      } else {
        UpdateFromAt(rest, along, last, flags, k - 1);
      }
      TallerStep(trees, k);
    }
  }

  lemma TallerStep(trees: seq<nat>, k: nat)
    requires 0 < k < |trees|
    ensures Taller(trees, k) <==> trees[0] < trees[k] && Taller(trees[1..], k - 1)
  {
    assert forall j :: 0 <= j < k - 1 ==> trees[1..][j] == trees[j + 1];
  }

  /** The first sweep of a call (nothing seen yet): the `k`-th flag ends up set
      exactly when it was set or the `k`-th tree is taller than all before it. */
  lemma UpdateAt(trees: seq<nat>, flags: seq<bool>, path: seq<nat>, k: nat)
    requires InBounds(path, |flags|) && Distinct(path) && k < |trees| && k < |path|
    ensures Update(trees, flags, path)[path[k]] == (flags[path[k]] || Taller(trees, k))
  {
    UpdateFromAt(trees, path, None, flags, k);
  }

  /** Sweeps only set flags, so marks made before a sweep survive it. */
  lemma UpdateKeeps(trees: seq<nat>, flags: seq<bool>, path: seq<nat>, p: nat)
    requires InBounds(path, |flags|) && p < |flags| && flags[p]
    ensures Update(trees, flags, path)[p]
  {
    UpdateFromKeeps(trees, path, None, flags, p);
  }

  lemma UpdateElsewhere(trees: seq<nat>, flags: seq<bool>, path: seq<nat>, p: nat)
    requires InBounds(path, |flags|) && p < |flags|
    requires forall k :: 0 <= k < |trees| && k < |path| ==> path[k] != p
    ensures Update(trees, flags, path)[p] == flags[p]
  {
    UpdateFromElsewhere(trees, path, None, flags, p);
  }

  /** `0, 1, .., n - 1`: the positions `iter_mut` visits on a slice of length `n`. */
  function Indices(n: nat): (r: seq<nat>)
    ensures |r| == n && InBounds(r, n) && Distinct(r)
    ensures forall k :: 0 <= k < n ==> r[k] == k
  {
    seq(n, k => k)
  }

  /** `visible_trees_in_sequence`: one sweep over fresh flags. A tree is
      marked exactly when it is strictly taller than every tree before it:
      the marks are the strict prefix maxima. */
  function VisibleTreesInSequence(trees: seq<nat>): (r: seq<bool>)
    ensures |r| == |trees|
    ensures forall k :: 0 <= k < |trees| ==> (r[k] <==> Taller(trees, k))
  {
    var path := Indices(|trees|);
    var r := Update(trees, seq(|trees|, _ => false), path);
    MarksArePrefixMaxima(trees, path, r);
    r
  }

  lemma MarksArePrefixMaxima(trees: seq<nat>, path: seq<nat>, r: seq<bool>)
    requires path == Indices(|trees|) && r == Update(trees, seq(|trees|, _ => false), path)
    ensures forall k :: 0 <= k < |trees| ==> (r[k] <==> Taller(trees, k))
  {
    forall k | 0 <= k < |trees|
      ensures r[k] <==> Taller(trees, k)
    {
      UpdateAt(trees, seq(|trees|, _ => false), path, k);
    }
  }

  /** The first tree of a non-empty sweep is always marked. */
  lemma FirstMarked(trees: seq<nat>)
    requires trees != []
    ensures VisibleTreesInSequence(trees)[0]
  {
    assert Taller(trees, 0);
  }

  /** Read in sweep order, the marked trees are strictly increasing in height. */
  lemma MarksIncrease(trees: seq<nat>, i: nat, j: nat)
    requires i < j < |trees|
    requires VisibleTreesInSequence(trees)[i] && VisibleTreesInSequence(trees)[j]
    ensures trees[i] < trees[j]
  {
    assert Taller(trees, j);
  }

  /** The five sequences of the program's unit test. */
  lemma SweepExamples()
    ensures VisibleTreesInSequence([3, 0, 3, 7, 3]) == [true, false, false, true, false]
    ensures VisibleTreesInSequence([2, 5, 5, 1, 2]) == [true, true, false, false, false]
    ensures VisibleTreesInSequence([6, 5, 3, 3, 2]) == [true, false, false, false, false]
    ensures VisibleTreesInSequence([3, 3, 5, 4, 9]) == [true, false, true, false, true]
    ensures VisibleTreesInSequence([3, 5, 3, 9, 0]) == [true, true, false, true, false]
  {
    SweepExample([3, 0, 3, 7, 3], [true, false, false, true, false]);
    SweepExample([2, 5, 5, 1, 2], [true, true, false, false, false]);
    SweepExample([6, 5, 3, 3, 2], [true, false, false, false, false]);
    SweepExample([3, 3, 5, 4, 9], [true, false, true, false, true]);
    SweepExample([3, 5, 3, 9, 0], [true, true, false, true, false]);
  }

  /** Checks one sweep of five trees against the prefix-maxima description. */
  lemma SweepExample(trees: seq<nat>, marks: seq<bool>)
    requires |trees| == 5 && |marks| == 5
    requires marks[0] && (marks[1] <==> trees[0] < trees[1])
    requires marks[2] <==> trees[0] < trees[2] && trees[1] < trees[2]
    requires marks[3] <==> trees[0] < trees[3] && trees[1] < trees[3] && trees[2] < trees[3]
    requires marks[4] <==> trees[0] < trees[4] && trees[1] < trees[4] && trees[2] < trees[4] && trees[3] < trees[4]
    ensures VisibleTreesInSequence(trees) == marks
  {
    var r := VisibleTreesInSequence(trees);
    forall k | 0 <= k < 5
      ensures r[k] == marks[k]
    {
      assert r[k] == Taller(trees, k);
    }
  }

  /** `Grid`: `width` trees per row, `height` rows, heights stored row-major. */
  datatype Grid = Grid(width: nat, height: nat, heights: seq<nat>)

  /** The input bytes other than `'\n'`, in order. */
  function NonNewline(input: string): (r: string)
    ensures |r| <= |input| && '\n' !in r
  {
    if input == [] then []
    else (if input[0] == '\n' then [] else [input[0]]) + NonNewline(input[1..])
  }

  /** `(b - '0' as u8)`: the height a byte stands for; a byte below `'0'`
      makes the unsigned subtraction overflow. */
  function Height(c: char): (r: Result<nat>)
    ensures r.Ok? <==> c >= '0'
    ensures IsDigit(c) ==> r == Ok(DigitValue(c))
  {
    if c < '0' then Err("attempt to subtract with overflow") else Ok(c as nat - '0' as nat)
  }

  /** No byte lies below `'0'`, so every subtraction of `'0'` stays unsigned. */
  predicate NoUnderflow(bytes: string) {
    forall k :: 0 <= k < |bytes| ==> bytes[k] >= '0'
  }

  /** `parse`: the width is the offset of the first line break, every other
      byte is a tree height, and the height is how many whole rows those fill. */
  function Parse(input: string): (r: Result<Grid>)
    ensures r.Ok? <==> '\n' in input && IndexOf(input, '\n') > 0 && NoUnderflow(NonNewline(input))
    ensures r.Ok? ==> r.value.width == IndexOf(input, '\n') && r.value.height == |r.value.heights| / r.value.width
    ensures r.Ok? ==> |r.value.heights| == |NonNewline(input)|
    ensures r.Ok? ==> forall k :: 0 <= k < |r.value.heights| ==> r.value.heights[k] == NonNewline(input)[k] as nat - '0' as nat
  {
    if '\n' !in input then Err("called `Option::unwrap()` on a `None` value")
    else
      var width := IndexOf(input, '\n');
      var bytes := NonNewline(input);
      var heights := Collect(Height, bytes);
      if heights.Err? then Err(heights.error)
      else if width == 0 then Err("attempt to divide by zero")
      else Ok(Grid(width, |heights.value| / width, heights.value))
  }

  /** The digits of one row of heights. */
  function DigitsOf(cells: seq<nat>): (r: string)
    requires forall k :: 0 <= k < |cells| ==> cells[k] < 10
    ensures |r| == |cells| && forall k :: 0 <= k < |cells| ==> r[k] == DigitChar(cells[k])
  {
    seq(|cells|, k requires 0 <= k < |cells| => DigitChar(cells[k]))
  }

  /** The puzzle input for `rows` rows of `width` heights each: each row of
      digits ends with a line break. This is the partner of `Parse`. */
  function Render(cells: seq<nat>, width: nat, rows: nat): string
    requires |cells| == rows * width
    requires forall k :: 0 <= k < |cells| ==> cells[k] < 10
    decreases rows
  {
    if rows == 0 then []
    else
      RowSplit(rows, width);
      DigitsOf(cells[..width]) + "\n" + Render(cells[width..], width, rows - 1)
  }

  lemma RowSplit(rows: nat, width: nat)
    requires rows > 0
    ensures rows * width == width + (rows - 1) * width
  {
  }

  /** A grid every tree of which is a single digit and whose rows are all full. */
  predicate WellFormed(g: Grid) {
    && g.width > 0 && g.height > 0
    && |g.heights| == g.height * g.width
    && forall k :: 0 <= k < |g.heights| ==> g.heights[k] < 10
  }

  /** Parsing the rendered grid gives the grid back. */
  lemma ParseRender(g: Grid)
    requires WellFormed(g)
    ensures Parse(Render(g.heights, g.width, g.height)) == Ok(g)
  {
    var w, h, cells := g.width, g.height, g.heights;
    var input := Render(cells, w, h);
    RowSplit(h, w);
    var first, rest := DigitsOf(cells[..w]), Render(cells[w..], w, h - 1);
    assert input == first + "\n" + rest;
    assert '\n' !in first;
    IndexOfAfterPrefix(first, '\n', rest);
    NonNewlineRender(cells, w, h);
    HeightsOfDigits(cells);
    MulDiv(h, w);
  }

  lemma MulDiv(h: nat, w: nat)
    requires w > 0
    ensures (h * w) / w == h
  {
    DivUnique(h * w, w, h, 0);
  }

  /** Euclidean division has one quotient and remainder. */
  lemma DivUnique(a: int, w: int, q: int, r: int)
    requires w > 0 && 0 <= r < w && a == q * w + r
    ensures a / w == q
  {
    var q2, r2 := a / w, a % w;
    assert a == q2 * w + r2;
    if q2 > q {
      MulAtLeast(q2 - q, w);
      assert false;
    } else if q2 < q {
      MulAtLeast(q - q2, w);
      assert false;
    }
  }

  lemma {:induction false} MulAtLeast(n: nat, w: nat)
    requires n > 0
    ensures n * w >= w
    decreases n
  {
    if n > 1 {
      MulAtLeast(n - 1, w);
      assert n * w == (n - 1) * w + w;
    }
  }

  /** The digit bytes of a rendered grid, line breaks dropped, are its heights' digits. */
  lemma {:induction false} NonNewlineRender(cells: seq<nat>, width: nat, rows: nat)
    requires |cells| == rows * width
    requires forall k :: 0 <= k < |cells| ==> cells[k] < 10
    ensures NonNewline(Render(cells, width, rows)) == DigitsOf(cells)
    decreases rows
  {
    if rows > 0 {
      RowSplit(rows, width);
      var row, rest := cells[..width], cells[width..];
      var line := DigitsOf(row) + "\n";
      var tail := Render(rest, width, rows - 1);
      assert Render(cells, width, rows) == line + tail;
      NonNewlineConcat(line, tail);
      NonNewlineRender(rest, width, rows - 1);
      NonNewlineLine(row);
      DigitsOfConcat(row, rest);
      assert cells == row + rest;
    }
  }

  /** A rendered row, line break dropped, is its digits. */
  lemma NonNewlineLine(row: seq<nat>)
    requires forall k :: 0 <= k < |row| ==> row[k] < 10
    ensures NonNewline(DigitsOf(row) + "\n") == DigitsOf(row)
  {
    NonNewlineConcat(DigitsOf(row), "\n");
    NonNewlineDigits(row);
    assert NonNewline("\n") == [];
  }

  lemma DigitsOfConcat(a: seq<nat>, b: seq<nat>)
    requires forall k :: 0 <= k < |a| ==> a[k] < 10
    requires forall k :: 0 <= k < |b| ==> b[k] < 10
    ensures DigitsOf(a + b) == DigitsOf(a) + DigitsOf(b)
  {
  }

  lemma {:induction false} NonNewlineConcat(a: string, b: string)
    ensures NonNewline(a + b) == NonNewline(a) + NonNewline(b)
    decreases |a|
  {
    if a == [] {
      assert a + b == b;
    } else {
      var head := if a[0] == '\n' then [] else [a[0]];
      assert (a + b)[0] == a[0] && (a + b)[1..] == a[1..] + b;
      NonNewlineConcat(a[1..], b);
      calc {
        NonNewline(a + b);
        head + NonNewline(a[1..] + b);
        head + (NonNewline(a[1..]) + NonNewline(b));
        (head + NonNewline(a[1..])) + NonNewline(b);
      }
    }
  }

  lemma {:induction false} NonNewlineDigits(cells: seq<nat>)
    requires forall k :: 0 <= k < |cells| ==> cells[k] < 10
    ensures NonNewline(DigitsOf(cells)) == DigitsOf(cells)
    decreases |cells|
  {
    if cells != [] {
      assert DigitsOf(cells)[1..] == DigitsOf(cells[1..]);
      NonNewlineDigits(cells[1..]);
    }
  }

  lemma HeightsOfDigits(cells: seq<nat>)
    requires forall k :: 0 <= k < |cells| ==> cells[k] < 10
    ensures Collect(Height, DigitsOf(cells)) == Ok(cells)
  {
    CollectOk(Height, DigitsOf(cells), cells);
  }

  /** `start, start + step, ..`: the first `count` positions `step_by(step)` visits from `start`. */
  function Stepped(start: nat, step: nat, count: nat): (r: seq<nat>)
    ensures |r| == count
    ensures forall k :: 0 <= k < count ==> r[k] == start + k * step
  {
    seq(count, k => start + k * step)
  }

  /** How many items `step_by(step)` yields from an iterator of `len` items. */
  function StepCount(len: nat, step: nat): nat
    requires step > 0
  {
    if len == 0 then 0 else 1 + (len - 1) / step
  }

  /** Every position `step_by` yields lies inside the slice it walks. */
  lemma StepFits(start: nat, step: nat, len: nat)
    requires step > 0
    ensures InBounds(Stepped(start, step, StepCount(len, step)), start + len)
  {
    if len > 0 {
      var q := (len - 1) / step;
      assert q * step <= len - 1;
      forall k | 0 <= k <= q
        ensures k * step <= len - 1
      {
        MulLe(k, q, step);
      }
    }
  }

  lemma MulLe(a: nat, b: nat, c: nat)
    requires a <= b
    ensures a * c <= b * c
  {
    assert b * c == a * c + (b - a) * c;
  }

  /** The heights found at the positions of `path`, in order. */
  function Along(heights: seq<nat>, path: seq<nat>): (r: seq<nat>)
    requires InBounds(path, |heights|)
    ensures |r| == |path| && forall k :: 0 <= k < |path| ==> r[k] == heights[path[k]]
  {
    seq(|path|, k requires 0 <= k < |path| => heights[path[k]])
  }

  /** The positions `row * width .. row * width + width` of one row, all
      inside the first `width * height`. */
  function RowPath(g: Grid, row: nat): (r: seq<nat>)
    requires row < g.height
    ensures |r| == g.width && InBounds(r, g.width * g.height)
    ensures forall k :: 0 <= k < g.width ==> r[k] == row * g.width + k
  {
    MulLe(row + 1, g.height, g.width);
    Stepped(row * g.width, 1, g.width)
  }

  /** `slice[start..].iter().step_by(step)` on a slice of length `len`: the
      positions visited, all inside the slice. */
  function StepPath(start: nat, step: nat, len: nat): (r: seq<nat>)
    requires step > 0 && start <= len
    ensures InBounds(r, len)
  {
    StepFits(start, step, len - start);
    Stepped(start, step, StepCount(len - start, step))
  }

  lemma WidthFits(w: nat, h: nat)
    ensures h > 0 ==> w <= w * h
  {
    if h > 0 {
      MulLe(1, h, w);
    }
  }

  /** `tree_heights[col..].iter().step_by(step)`: the height positions a column sweep visits. */
  function ColumnTrees(g: Grid, col: nat, step: nat): (r: seq<nat>)
    requires step > 0 && col <= |g.heights|
    ensures InBounds(r, |g.heights|)
  {
    StepPath(col, step, |g.heights|)
  }

  /** `visible_trees[col..].iter_mut().step_by(step)`: the flag positions a column sweep visits. */
  function ColumnFlags(g: Grid, col: nat, step: nat): (r: seq<nat>)
    requires step > 0 && col <= g.width * g.height
    ensures InBounds(r, g.width * g.height)
  {
    StepPath(col, step, g.width * g.height)
  }

  /** The grid holds at least `width * height` heights, the length of the flags. */
  predicate Covered(g: Grid) {
    g.width * g.height <= |g.heights|
  }

  /** A sweep along `path`, then one along the same path reversed, as each pass
      of both loops of `count_trees_visible_from_perimeter` does. */
  function SweepBothWays(trees: seq<nat>, flags: seq<bool>, path: seq<nat>): (r: seq<bool>)
    requires InBounds(path, |flags|)
    ensures |r| == |flags|
  {
    var forward := Update(trees, flags, path);
    Update(Reverse(trees), forward, Reverse(path))
  }

  /** Along a path without repeats, sweeping both ways sets the `k`-th visited
      flag exactly when it was set or the `k`-th tree is taller than every tree
      before it or than every tree after it. */
  lemma SweepBothWaysAt(trees: seq<nat>, flags: seq<bool>, path: seq<nat>, k: nat)
    requires InBounds(path, |flags|) && Distinct(path) && |trees| == |path| && k < |path|
    ensures SweepBothWays(trees, flags, path)[path[k]] == (flags[path[k]] || Taller(trees, k) || TallerThanLater(trees, k))
  {
    TallerReversed(trees, k);
    UpdateAt(trees, flags, path, k);
    var forward := Update(trees, flags, path);
    var back := Reverse(path);
    assert Distinct(back);
    var j := |path| - 1 - k;
    assert back[j] == path[k];
    UpdateAt(Reverse(trees), forward, back, j);
  }

  /** Sweeping both ways leaves alone every flag the path does not visit. */
  lemma SweepBothWaysElsewhere(trees: seq<nat>, flags: seq<bool>, path: seq<nat>, p: nat)
    requires InBounds(path, |flags|) && p < |flags| && |trees| == |path|
    requires forall k :: 0 <= k < |path| ==> path[k] != p
    ensures SweepBothWays(trees, flags, path)[p] == flags[p]
  {
    UpdateElsewhere(trees, flags, path, p);
    var forward := Update(trees, flags, path);
    UpdateElsewhere(Reverse(trees), forward, Reverse(path), p);
  }

  /** One pass of the first loop of `count_trees_visible_from_perimeter`: row
      `row` swept from the left, then from the right. */
  function SweepRow(g: Grid, flags: seq<bool>, row: nat): (r: seq<bool>)
    requires Covered(g) && |flags| == g.width * g.height && row < g.height
    ensures |r| == |flags|
  {
    var path := RowPath(g, row);
    SweepBothWays(Along(g.heights, path), flags, path)
  }

  /** The first loop from row `row` on. */
  function RowSweeps(g: Grid, flags: seq<bool>, row: nat): (r: seq<bool>)
    requires Covered(g) && |flags| == g.width * g.height
    ensures |r| == |flags|
    decreases g.height - row
  {
    if row >= g.height then flags else RowSweeps(g, SweepRow(g, flags, row), row + 1)
  }

  /** One pass of the second loop: column `col` swept from the top, then from
      the bottom, both stepping by `step`. */
  function SweepColumn(g: Grid, flags: seq<bool>, col: nat, step: nat): (r: seq<bool>)
    requires Covered(g) && |flags| == g.width * g.height && col < g.width && step > 0
    requires g.height > 0 || col == 0
    ensures |r| == |flags|
  {
    WidthFits(g.width, g.height);
    SweepBothWays(Along(g.heights, ColumnTrees(g, col, step)), flags, ColumnFlags(g, col, step))
  }

  /** The second loop from column `col` on. A slice `[col..]` of the empty
      flags past column 0 is out of range, hence the bound on the width of a
      grid without rows. */
  function ColumnSweeps(g: Grid, flags: seq<bool>, col: nat, step: nat): (r: seq<bool>)
    requires Covered(g) && |flags| == g.width * g.height
    requires (step > 0 || g.width == 0) && (g.height > 0 || g.width <= 1)
    ensures |r| == |flags|
    decreases g.width - col
  {
    if col >= g.width then flags else ColumnSweeps(g, SweepColumn(g, flags, col, step), col + 1, step)
  }

  /** The flags after all four kinds of sweep, the column sweeps stepping by `step`. */
  function Flags(g: Grid, step: nat): (r: seq<bool>)
    requires Covered(g) && (step > 0 || g.width == 0) && (g.height > 0 || g.width <= 1)
    ensures |r| == g.width * g.height
  {
    ColumnSweeps(g, RowSweeps(g, seq(g.width * g.height, _ => false), 0), 0, step)
  }

  /** `count_trees_visible_from_perimeter` as written: the column sweeps step
      by the grid's height. Slicing a row past the end of the heights and
      `step_by(0)` both abort the program. */
  function CountAsWritten(g: Grid): (r: Result<nat>)
    ensures r.Ok? <==> Covered(g) && (g.height > 0 || g.width == 0)
    ensures r.Ok? ==> r.value <= g.width * g.height
  {
    if !Covered(g) then Err("range end index out of range for slice")
    else if g.height == 0 && g.width > 0 then Err("assertion failed: step != 0")
    else Ok(CountTrue(Flags(g, g.height)))
  }

  /** `count_trees_visible_from_perimeter` with the column sweeps stepping by
      the grid's width, the distance between two trees of one column. On a
      grid without rows, slicing the empty flags from column 1 aborts. */
  function Count(g: Grid): (r: Result<nat>)
    ensures r.Ok? <==> Covered(g) && (g.height > 0 || g.width <= 1)
    ensures r.Ok? ==> r.value <= g.width * g.height
  {
    if !Covered(g) then Err("range end index out of range for slice")
    else if g.height == 0 && g.width > 1 then Err("range start index out of range for slice")
    else Ok(CountTrue(Flags(g, g.width)))
  }

  /** On a square grid the two strides agree. */
  lemma AsWrittenOnSquare(g: Grid)
    requires g.width == g.height
    ensures CountAsWritten(g) == Count(g)
  {
  }

  /** `part_1` without reading the file and printing, with the corrected count. */
  function Part1(input: string): (r: Result<nat>)
    ensures r.Ok? ==> Parse(input).Ok? && Count(Parse(input).value) == r
  {
    var g :- Parse(input);
    Count(g)
  }
}
