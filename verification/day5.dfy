/** Day 5: crates stacked in numbered stacks are rearranged by a crane that
    moves the top `number` crates from one stack to another, one crate at a
    time (so the moved crates end up in reverse order). The input is a drawing
    of the stacks, a blank line, then one `move N from S to D` line per step;
    the answer is the top crate of every stack. */
module Day5 {
  import opened Results
  import opened Text
  import opened Seqs

  /** A stack of crates, bottom first: the last element is the top crate. */
  type Stack = seq<char>

  /** `struct State(Vec<Vec<char>>)` */
  datatype State = State(stacks: seq<Stack>)

  /** `struct Move`, with 0-based stack indices. */
  datatype Move = Move(number: nat, source: nat, dest: nat)

  /** Every crate on every stack. */
  function AllCrates(stacks: seq<Stack>): multiset<char> {
    if stacks == [] then multiset{} else multiset(stacks[0]) + AllCrates(stacks[1..])
  }

  lemma {:induction false} AllCratesUpdate(stacks: seq<Stack>, i: nat, x: Stack)
    requires i < |stacks|
    ensures AllCrates(stacks[i := x]) + multiset(stacks[i]) == AllCrates(stacks) + multiset(x)
    decreases i
  {
    var u := stacks[i := x];
    assert AllCrates(u) == multiset(u[0]) + AllCrates(u[1..]);
    assert AllCrates(stacks) == multiset(stacks[0]) + AllCrates(stacks[1..]);
    if i == 0 {
      assert u[1..] == stacks[1..];
    } else {
      var tail := stacks[1..];
      AllCratesUpdate(tail, i - 1, x);
      assert u[1..] == tail[i - 1 := x];
      assert tail[i - 1] == stacks[i];
      var a, b := multiset(stacks[0]), AllCrates(tail[i - 1 := x]);
      calc {
        AllCrates(u) + multiset(stacks[i]);
        a + b + multiset(tail[i - 1]);
        a + (b + multiset(tail[i - 1]));
        a + (AllCrates(tail) + multiset(x));
        AllCrates(stacks) + multiset(x);
      }
    }
  }

  /** The indexing and the subtraction in `apply_move` do not panic. */
  predicate ValidMove(state: State, m: Move) {
    m.source < |state.stacks| && m.dest < |state.stacks| && m.number <= |state.stacks[m.source]|
  }

  /** `State::apply_move`: drain the top `number` crates of the source stack,
      reverse them and append them to the destination stack. */
  function ApplyMove(state: State, m: Move): (r: State)
    requires ValidMove(state, m)
    ensures |r.stacks| == |state.stacks|
    ensures forall i :: 0 <= i < |state.stacks| && i != m.source && i != m.dest ==> r.stacks[i] == state.stacks[i]
    ensures var src := state.stacks[m.source]; var keep := |src| - m.number;
      m.source != m.dest ==> r.stacks[m.source] == src[..keep] && r.stacks[m.dest] == state.stacks[m.dest] + Reverse(src[keep..])
    ensures var src := state.stacks[m.source]; var keep := |src| - m.number;
      m.source == m.dest ==> r.stacks[m.source] == src[..keep] + Reverse(src[keep..])
  {
    var src := state.stacks[m.source];
    var keep := |src| - m.number;
    var drained := state.stacks[m.source := src[..keep]];
    State(drained[m.dest := drained[m.dest] + Reverse(src[keep..])])
  }

  lemma MultisetCancel(a: multiset<char>, b: multiset<char>, c: multiset<char>)
    requires a + c == b + c
    ensures a == b
  {
    forall x
      ensures a[x] == b[x]
    {
      assert (a + c)[x] == (b + c)[x];
    }
  }

  /** A move neither creates nor destroys crates. */
  lemma MoveConservesCrates(state: State, m: Move)
    requires ValidMove(state, m)
    ensures AllCrates(ApplyMove(state, m).stacks) == AllCrates(state.stacks)
  {
    var src := state.stacks[m.source];
    var keep := |src| - m.number;
    var moving := Reverse(src[keep..]);
    var drained := state.stacks[m.source := src[..keep]];
    var dst := drained[m.dest];
    var after := drained[m.dest := dst + moving];
    assert ApplyMove(state, m).stacks == after;
    AllCratesUpdate(state.stacks, m.source, src[..keep]);
    AllCratesUpdate(drained, m.dest, dst + moving);
    assert multiset(moving) == multiset(src[keep..]) by {
      ReversePermutation(src[keep..]);
    }
    assert multiset(src) == multiset(src[..keep]) + multiset(src[keep..]) by {
      assert src == src[..keep] + src[keep..];
    }
    assert multiset(dst + moving) == multiset(dst) + multiset(moving);
    var c := multiset(dst) + multiset(src[..keep]);
    calc {
      AllCrates(after) + c;
      AllCrates(after) + multiset(dst) + multiset(src[..keep]);
      AllCrates(drained) + multiset(dst + moving) + multiset(src[..keep]);
      AllCrates(drained) + multiset(src[..keep]) + multiset(dst) + multiset(moving);
      AllCrates(drained) + multiset(src[..keep]) + multiset(moving) + multiset(dst);
      AllCrates(drained) + multiset(src) + multiset(dst);
      AllCrates(state.stacks) + multiset(src[..keep]) + multiset(dst);
      AllCrates(state.stacks) + c;
    }
    MultisetCancel(AllCrates(after), AllCrates(state.stacks), c);
  }

  /** The moves can be applied in order without a panic. */
  predicate Applicable(state: State, moves: seq<Move>)
    decreases |moves|
  {
    moves == [] || (ValidMove(state, moves[0]) && Applicable(ApplyMove(state, moves[0]), moves[1..]))
  }

  /** `State::apply`: the moves applied one after another. However many
      moves are applied, the number of stacks and the crates on them stay the
      same. */
  function Apply(state: State, moves: seq<Move>): (r: State)
    requires Applicable(state, moves)
    ensures |r.stacks| == |state.stacks|
    ensures AllCrates(r.stacks) == AllCrates(state.stacks)
    decreases |moves|
  {
    if moves == [] then state
    else
      MoveConservesCrates(state, moves[0]);
      Apply(ApplyMove(state, moves[0]), moves[1..])
  }

  /** Applying a list of moves is applying its first part, then the rest. */
  lemma {:induction false} ApplyConcat(state: State, a: seq<Move>, b: seq<Move>)
    requires Applicable(state, a + b)
    ensures Applicable(state, a) && Applicable(Apply(state, a), b)
    ensures Apply(state, a + b) == Apply(Apply(state, a), b)
    decreases |a|
  {
    if a != [] {
      assert (a + b)[0] == a[0];
      assert (a + b)[1..] == a[1..] + b;
      ApplyConcat(ApplyMove(state, a[0]), a[1..], b);
    } else {
      assert a + b == b;
    }
  }

  /** `n` moves of a single crate. */
  function SingleMoves(n: nat, source: nat, dest: nat): (moves: seq<Move>)
    ensures |moves| == n
  {
    if n == 0 then [] else [Move(1, source, dest)] + SingleMoves(n - 1, source, dest)
  }

  /** Two updates of distinct positions, overwritten by two more, leave only the later ones. */
  lemma Overwrite(stacks: seq<Stack>, a: nat, b: nat, x: Stack, y: Stack, x': Stack, y': Stack)
    requires a < |stacks| && b < |stacks| && a != b
    ensures stacks[a := x][b := y][a := x'][b := y'] == stacks[a := x'][b := y']
  {
  }

  /** One crate moved, then `n - 1` more, is `n` crates moved at once. */
  lemma OneThenRest(state: State, m: Move)
    requires ValidMove(state, m) && m.source != m.dest && m.number > 0
    ensures ValidMove(ApplyMove(state, Move(1, m.source, m.dest)), Move(m.number - 1, m.source, m.dest))
    ensures ApplyMove(ApplyMove(state, Move(1, m.source, m.dest)), Move(m.number - 1, m.source, m.dest)) == ApplyMove(state, m)
  {
    var src := state.stacks[m.source];
    var dst := state.stacks[m.dest];
    var keep := |src| - m.number;
    var last := |src| - 1;
    var next := ApplyMove(state, Move(1, m.source, m.dest));
    assert src[last..] == [src[last]];
    assert Reverse([src[last]]) == [src[last]];
    var drained := state.stacks[m.source := src[..last]];
    assert drained[m.dest] == dst;
    assert next.stacks == drained[m.dest := dst + [src[last]]];
    var src' := next.stacks[m.source];
    assert src' == src[..last];
    assert next.stacks[m.dest] == dst + [src[last]];
    assert src'[..keep] == src[..keep];
    assert src'[keep..] == src[keep..last];
    PushReversed(dst, src, keep);
    Overwrite(state.stacks, m.source, m.dest, src[..last], dst + [src[last]], src[..keep], dst + Reverse(src[keep..]));
  }

  /** Pushing the top crate, then the rest of the taken crates reversed, is
      pushing all of them reversed. */
  lemma PushReversed(dst: Stack, src: Stack, keep: nat)
    requires keep < |src|
    ensures dst + [src[|src| - 1]] + Reverse(src[keep..|src| - 1]) == dst + Reverse(src[keep..])
  {
    var taken := src[keep..];
    ReverseLastFirst(taken);
    assert taken[..|taken| - 1] == src[keep..|src| - 1];
  }

  /** Moving `n` crates at once is the same as moving them one at a time: that
      is why the moved crates arrive in reverse order. */
  lemma {:induction false} MoveIsRepeatedSingleMoves(state: State, m: Move)
    requires ValidMove(state, m) && m.source != m.dest
    ensures Applicable(state, SingleMoves(m.number, m.source, m.dest))
    ensures Apply(state, SingleMoves(m.number, m.source, m.dest)) == ApplyMove(state, m)
    decreases m.number
  {
    var moves := SingleMoves(m.number, m.source, m.dest);
    if m.number > 0 {
      var one := Move(1, m.source, m.dest);
      var rest := Move(m.number - 1, m.source, m.dest);
      OneThenRest(state, m);
      MoveIsRepeatedSingleMoves(ApplyMove(state, one), rest);
      assert moves[0] == one && moves[1..] == SingleMoves(m.number - 1, m.source, m.dest);
    } else {
      MoveNone(state, m);
    }
  }

  /** A move of no crates changes nothing. */
  lemma MoveNone(state: State, m: Move)
    requires ValidMove(state, m) && m.number == 0
    ensures ApplyMove(state, m) == state
  {
    var r := ApplyMove(state, m).stacks;
    var src := state.stacks[m.source];
    assert src[..|src|] == src;
    assert Reverse(src[|src|..]) == [];
    forall i | 0 <= i < |state.stacks|
      ensures r[i] == state.stacks[i]
    {
      if i == m.source || i == m.dest {
        assert state.stacks[i] + [] == state.stacks[i];
      }
    }
    assert r == state.stacks;
  }

  /** After a move of at least one crate, the destination's top crate is the
      deepest of the crates taken from the source. */
  lemma TopAfterMove(state: State, m: Move)
    requires ValidMove(state, m) && m.source != m.dest && m.number > 0
    ensures var src := state.stacks[m.source]; var dst := ApplyMove(state, m).stacks[m.dest];
      dst[|dst| - 1] == src[|src| - m.number]
  {
  }

  /** `State::summary`: the top crate of every stack, in stack order. */
  function Summary(state: State): (r: string)
    requires forall i :: 0 <= i < |state.stacks| ==> |state.stacks[i]| > 0
    ensures |r| == |state.stacks|
    ensures forall i :: 0 <= i < |r| ==> r[i] == state.stacks[i][|state.stacks[i]| - 1]
    decreases |state.stacks|
  {
    if state.stacks == [] then ""
    else
      var top := state.stacks[0][|state.stacks[0]| - 1];
      [top] + Summary(State(state.stacks[1..]))
  }

  // ----- Reading the drawing -----

  /** One chunk of a drawing row: `[x]` followed by anything names crate `x`. */
  function ParseCell(chunk: string): Option<char> {
    if |chunk| >= 3 && chunk[0] == '[' && chunk[2] == ']' then Some(chunk[1]) else None
  }

  /** The crates named by a row of the drawing, read in chunks of four characters
      (the last chunk may be shorter). */
  function Cells(line: string): (cells: seq<Option<char>>)
    ensures |cells| == (|line| + 3) / 4
    ensures forall k :: 0 <= k < |cells| ==> cells[k] == ParseCell(line[4 * k .. Min(4 * k + 4, |line|)])
    decreases |line|
  {
    if line == "" then []
    else
      var n := Min(4, |line|);
      var rest := Cells(line[n..]);
      var cells := [ParseCell(line[..n])] + rest;
      assert |cells| == (|line| + 3) / 4 by {
        assert |line[n..]| == |line| - n;
      }
      assert cells[0] == ParseCell(line[0 .. Min(4, |line|)]);
      forall k | 1 <= k < |cells|
        ensures cells[k] == ParseCell(line[4 * k .. Min(4 * k + 4, |line|)])
      {
        assert cells[k] == rest[k - 1];
        ChunkShift(line, k);
      }
      cells
  }

  /** The chunks after the first are the chunks of the rest of the row. */
  lemma ChunkShift(line: string, k: nat)
    requires 1 <= k && 4 * k < |line|
    ensures line[4..][4 * (k - 1) .. Min(4 * (k - 1) + 4, |line| - 4)] == line[4 * k .. Min(4 * k + 4, |line|)]
  {
    var lo, hi := 4 * (k - 1), Min(4 * (k - 1) + 4, |line| - 4);
    assert 4 + lo == 4 * k && 4 + hi == Min(4 * k + 4, |line|);
    assert line[4..][lo..hi] == line[4 + lo..4 + hi];
  }

  /** The crate a row holds for stack `k`, as a sequence of zero or one crates. */
  function Crate(cells: seq<Option<char>>, k: nat): seq<char> {
    if k < |cells| && cells[k].Some? then [cells[k].value] else []
  }

  /** The `for (idx, item) in items.enumerate()` loop from index `idx` on:
      each crate is pushed onto its stack, and a crate beyond the last stack
      is an index out of bounds. */
  function PushFrom(stacks: seq<Stack>, cells: seq<Option<char>>, idx: nat): (r: Result<seq<Stack>>)
    requires idx <= |cells|
    ensures r.Ok? <==> forall k :: idx <= k < |cells| && |stacks| <= k ==> cells[k].None?
    ensures r.Ok? ==> |r.value| == |stacks|
    ensures r.Ok? ==> forall k :: 0 <= k < |stacks| ==> r.value[k] == stacks[k] + (if idx <= k then Crate(cells, k) else [])
    decreases |cells| - idx
  {
    if idx == |cells| then Ok(stacks)
    else match cells[idx]
      case None => PushFrom(stacks, cells, idx + 1)
      case Some(c) =>
        if idx >= |stacks| then Err("index out of bounds")
        else PushFrom(stacks[idx := stacks[idx] + [c]], cells, idx + 1)
  }

  /** One step of the fold in `State::from_str`: a row of the drawing pushed
      onto the stacks. */
  function PushRow(stacks: seq<Stack>, cells: seq<Option<char>>): (r: Result<seq<Stack>>)
    ensures r.Ok? <==> forall k :: |stacks| <= k < |cells| ==> cells[k].None?
    ensures r.Ok? ==> |r.value| == |stacks|
    ensures r.Ok? ==> forall k :: 0 <= k < |stacks| ==> r.value[k] == stacks[k] + Crate(cells, k)
  {
    PushFrom(stacks, cells, 0)
  }

  /** The crates rows name for stack `k`, first row first: the reference for
      what the fold builds. */
  function Column(rows: seq<seq<Option<char>>>, k: nat): seq<char> {
    if rows == [] then [] else Column(rows[..|rows| - 1], k) + Crate(rows[|rows| - 1], k)
  }

  /** No row names a crate beyond the last of `count` stacks. */
  predicate RowsFit(rows: seq<seq<Option<char>>>, count: nat) {
    forall j, k :: 0 <= j < |rows| && count <= k < |rows[j]| ==> rows[j][k].None?
  }

  /** The fold in `State::from_str`: rows pushed bottom row first. */
  function PushRows(stacks: seq<Stack>, rows: seq<seq<Option<char>>>): (r: Result<seq<Stack>>)
    ensures r.Ok? <==> RowsFit(rows, |stacks|)
    ensures r.Ok? ==> |r.value| == |stacks|
    ensures r.Ok? ==> forall k :: 0 <= k < |stacks| ==> r.value[k] == stacks[k] + Column(rows, k)
  {
    if rows == [] then Ok(stacks)
    else
      var init := rows[..|rows| - 1];
      assert forall j :: 0 <= j < |init| ==> init[j] == rows[j];
      match PushRows(stacks, init)
      case Err(e) => Err(e)
      case Ok(below) => PushRow(below, rows[|rows| - 1])
  }

  /** `State::from_str`: the last line labels the stacks and fixes how many
      there are; the other lines, read bottom up, fill them. A drawing with no
      lines at all makes the `unwrap` of the label line fail. */
  function ParseState(s: string): (r: Result<State>)
    ensures Lines(s) == [] ==> r.Err?
    ensures r.Ok? ==> |r.value.stacks| == |Words(Lines(s)[|Lines(s)| - 1], UnicodeWhitespace)|
  {
    var lines := Lines(s);
    if lines == [] then Err("called `Option::unwrap()` on a `None` value")
    else
      var count := |Words(lines[|lines| - 1], UnicodeWhitespace)|;
      var body := Reverse(lines[..|lines| - 1]);
      var rows := seq(|body|, j requires 0 <= j < |body| => Cells(body[j]));
      var stacks :- PushRows(seq(count, _ => []), rows);
      Ok(State(stacks))
  }

  // ----- Drawing a state, the partner of `ParseState` -----

  /** The three characters drawn for stack `s` at height `h`. */
  function CellText(s: Stack, h: nat): string {
    if h < |s| then ['[', s[h], ']'] else "   "
  }

  /** The row of the drawing at height `h` (0 is the bottom row). */
  function RowText(stacks: seq<Stack>, h: nat): string
    requires |stacks| >= 1
    decreases |stacks|
  {
    if |stacks| == 1 then CellText(stacks[0], h)
    else CellText(stacks[0], h) + " " + RowText(stacks[1..], h)
  }

  /** Which stacks hold a crate at height `h`, and which crate. */
  function Level(stacks: seq<Stack>, h: nat): (cells: seq<Option<char>>)
    ensures |cells| == |stacks|
  {
    seq(|stacks|, k requires 0 <= k < |stacks| => if h < |stacks[k]| then Some(stacks[k][h]) else None)
  }

  /** The tallest stack's height. */
  function Height(stacks: seq<Stack>): (n: nat)
    ensures forall k :: 0 <= k < |stacks| ==> |stacks[k]| <= n
  {
    if stacks == [] then 0
    else
      var rest := Height(stacks[1..]);
      assert forall k :: 1 <= k < |stacks| ==> stacks[k] == stacks[1..][k - 1];
      if |stacks[0]| > rest then |stacks[0]| else rest
  }

  /** The label line ` 1 2 ... n`, one label per stack. */
  function LabelLine(n: nat): (line: string)
    requires n >= 1
  {
    Unwords(seq(n, i requires 0 <= i < n => NatToString(i + 1)))
  }

  /** The rows of the drawing from the top down. */
  function DrawnRows(stacks: seq<Stack>): (rows: seq<string>)
    requires |stacks| >= 1
    ensures |rows| == Height(stacks)
  {
    var h := Height(stacks);
    seq(h, j requires 0 <= j < h => RowText(stacks, h - 1 - j))
  }

  /** The drawing of a state: rows from the top down, then the label line. */
  function Drawing(state: State): string
    requires |state.stacks| >= 1
  {
    Join(DrawnRows(state.stacks) + [LabelLine(|state.stacks|)], '\n')
  }

  /** Reading a drawn row gives back which stacks are that tall, and their crates. */
  lemma {:induction false} CellsOfRow(stacks: seq<Stack>, h: nat)
    requires |stacks| >= 1
    ensures Cells(RowText(stacks, h)) == Level(stacks, h)
    decreases |stacks|
  {
    var cell := CellText(stacks[0], h);
    var first := if h < |stacks[0]| then Some(stacks[0][h]) else None;
    if |stacks| == 1 {
      assert cell[..3] == cell;
      assert Cells(cell) == [ParseCell(cell)] + Cells(cell[3..]);
    } else {
      CellsOfRow(stacks[1..], h);
      CellsAfterCell(cell, RowText(stacks[1..], h));
      LevelFirst(stacks, h);
    }
  }

  /** A three-character cell and its separating space parse as one cell. */
  lemma CellsAfterCell(cell: string, rest: string)
    requires |cell| == 3
    ensures Cells(cell + " " + rest) == [ParseCell(cell + " ")] + Cells(rest)
  {
    var line := cell + " " + rest;
    assert line[..4] == cell + " ";
    assert line[4..] == rest;
  }

  lemma LevelFirst(stacks: seq<Stack>, h: nat)
    requires |stacks| >= 1
    ensures Level(stacks, h) == [if h < |stacks[0]| then Some(stacks[0][h]) else None] + Level(stacks[1..], h)
  {
  }

  /** The rows of heights `0 .. n - 1`, bottom first. */
  function Levels(stacks: seq<Stack>, n: nat): (rows: seq<seq<Option<char>>>)
    ensures |rows| == n
  {
    seq(n, h requires 0 <= h < n => Level(stacks, h))
  }

  /** Stack `k` rebuilt from the bottom `n` levels is its bottom `n` crates. */
  lemma {:induction false} ColumnOfLevels(stacks: seq<Stack>, n: nat, k: nat)
    requires k < |stacks|
    ensures Column(Levels(stacks, n), k) == stacks[k][..Min(n, |stacks[k]|)]
    decreases n
  {
    if n > 0 {
      var rows := Levels(stacks, n);
      assert rows[..n - 1] == Levels(stacks, n - 1);
      ColumnOfLevels(stacks, n - 1, k);
      if n - 1 < |stacks[k]| {
        assert stacks[k][..n] == stacks[k][..n - 1] + [stacks[k][n - 1]];
      }
    }
  }

  /** No crate is a line break. */
  predicate NoLineBreaks(stacks: seq<Stack>) {
    forall k, j :: 0 <= k < |stacks| && 0 <= j < |stacks[k]| ==> stacks[k][j] != '\n'
  }

  /** The label line is one line, with one word per stack. */
  lemma LabelLineWords(n: nat)
    requires n >= 1
    ensures |LabelLine(n)| > 0 && '\n' !in LabelLine(n)
    ensures |Words(LabelLine(n), UnicodeWhitespace)| == n
  {
    var labels := seq(n, i requires 0 <= i < n => NatToString(i + 1));
    forall i | 0 <= i < n
      ensures '\n' !in labels[i]
    {
      assert IsDigit(labels[i][0]);
    }
    UnwordsHasNoNewline(labels);
    forall i, j | 0 <= i < n && 0 <= j < |labels[i]|
      ensures !IsSpace(UnicodeWhitespace, labels[i][j])
    {
      AlphanumericIsNotSpace(UnicodeWhitespace, labels[i][j]);
    }
    WordsOfUnwords(labels, UnicodeWhitespace);
    assert |labels[0]| > 0;
  }

  /** The drawing splits into its rows and the label line. */
  lemma LinesOfDrawing(state: State)
    requires |state.stacks| >= 1 && NoLineBreaks(state.stacks)
    ensures Lines(Drawing(state)) == DrawnRows(state.stacks) + [LabelLine(|state.stacks|)]
  {
    var stacks := state.stacks;
    var h := Height(stacks);
    var drawn := DrawnRows(stacks);
    var lines := drawn + [LabelLine(|stacks|)];
    LabelLineWords(|stacks|);
    forall j | 0 <= j < h
      ensures '\n' !in drawn[j]
    {
      RowIsLine(stacks, h - 1 - j);
    }
    assert forall k :: 0 <= k < |lines| ==> '\n' !in lines[k];
    LinesOfJoin(lines);
  }

  /** The drawn rows, read bottom up, are the levels of the stacks. */
  lemma CellsOfDrawnRows(stacks: seq<Stack>)
    requires |stacks| >= 1
    ensures var body := Reverse(DrawnRows(stacks));
      seq(|body|, j requires 0 <= j < |body| => Cells(body[j])) == Levels(stacks, Height(stacks))
  {
    var h := Height(stacks);
    var body := Reverse(DrawnRows(stacks));
    var rows := seq(|body|, j requires 0 <= j < |body| => Cells(body[j]));
    forall j | 0 <= j < h
      ensures rows[j] == Level(stacks, j)
    {
      assert body[j] == RowText(stacks, j);
      CellsOfRow(stacks, j);
    }
  }

  /** Pushing every level onto empty stacks rebuilds the stacks. */
  lemma PushLevels(stacks: seq<Stack>)
    ensures PushRows(seq(|stacks|, _ => []), Levels(stacks, Height(stacks))) == Ok(stacks)
  {
    var n := |stacks|;
    var h := Height(stacks);
    var rows := Levels(stacks, h);
    var empty: seq<Stack> := seq(n, _ => []);
    assert RowsFit(rows, n) by {
      forall j | 0 <= j < |rows|
        ensures |rows[j]| == n
      {
        assert rows[j] == Level(stacks, j);
      }
    }
    var r := PushRows(empty, rows);
    assert r.Ok?;
    forall k | 0 <= k < n
      ensures r.value[k] == stacks[k]
    {
      ColumnOfLevels(stacks, h, k);
      assert Min(h, |stacks[k]|) == |stacks[k]|;
      assert stacks[k][..|stacks[k]|] == stacks[k];
      assert empty[k] == [];
    }
    assert r.value == stacks;
  }

  /** A drawing is read back as the state it draws, as long as no crate is a
      line break and there is at least one stack to label. */
  lemma ParseDrawing(state: State)
    requires |state.stacks| >= 1 && NoLineBreaks(state.stacks)
    ensures ParseState(Drawing(state)) == Ok(state)
  {
    var stacks := state.stacks;
    var lines := DrawnRows(stacks) + [LabelLine(|stacks|)];
    LinesOfDrawing(state);
    LabelLineWords(|stacks|);
    assert lines[..|lines| - 1] == DrawnRows(stacks);
    CellsOfDrawnRows(stacks);
    PushLevels(stacks);
  }

  lemma {:induction false} RowIsLine(stacks: seq<Stack>, h: nat)
    requires |stacks| >= 1 && NoLineBreaks(stacks)
    ensures '\n' !in RowText(stacks, h) && |RowText(stacks, h)| >= 3
    decreases |stacks|
  {
    if |stacks| > 1 {
      RowIsLine(stacks[1..], h);
    }
  }

  // ----- Reading the moves -----

  /** Length of the run of ASCII digits starting at offset `i`. */
  function DigitRun(s: string, i: nat): (n: nat)
    requires i <= |s|
    ensures i + n <= |s|
    decreases |s| - i
  {
    if i < |s| && IsDigit(s[i]) then 1 + DigitRun(s, i + 1) else 0
  }

  /** The run is all digits, and the character after it is not one. */
  lemma {:induction false} DigitRunIsMaximal(s: string, i: nat)
    requires i <= |s|
    ensures forall k :: i <= k < i + DigitRun(s, i) ==> IsDigit(s[k])
    ensures i + DigitRun(s, i) < |s| ==> !IsDigit(s[i + DigitRun(s, i)])
    decreases |s| - i
  {
    if i < |s| && IsDigit(s[i]) {
      DigitRunIsMaximal(s, i + 1);
    }
  }

  /** `NumberAfter` finds a number exactly when `lit` is at `i` and a digit
      follows it, and then the number is the whole run of digits there. */
  lemma NumberAfterSpec(s: string, lit: string, i: nat)
    requires i <= |s|
    ensures NumberAfter(s, lit, i).Some? <==> OccursAt(s, lit, i) && i + |lit| < |s| && IsDigit(s[i + |lit|])
    ensures NumberAfter(s, lit, i).Some? ==> var e := NumberAfter(s, lit, i).value;
      AllDigits(s[i + |lit|..e]) && (e == |s| || !IsDigit(s[e]))
  {
    if OccursAt(s, lit, i) {
      var n := DigitRun(s, i + |lit|);
      DigitRunIsMaximal(s, i + |lit|);
      var run := s[i + |lit|..i + |lit| + n];
      forall k | 0 <= k < |run|
        ensures IsDigit(run[k])
      {
        assert run[k] == s[i + |lit| + k];
      }
    }
  }

  /** `lit` at offset `i` followed by one or more digits: the offset just
      past the digits. `\d+` is greedy, and since a digit can never start
      the text that follows it in the pattern, the whole run is taken. */
  function NumberAfter(s: string, lit: string, i: nat): (r: Option<nat>)
    requires i <= |s|
    ensures r.Some? ==> i + |lit| < r.value <= |s|
  {
    if OccursAt(s, lit, i) && DigitRun(s, i + |lit|) > 0 then Some(i + |lit| + DigitRun(s, i + |lit|))
    else None
  }

  /** The three groups captured by `move (\d+) from (\d+) to (\d+)`. */
  datatype Captures = Captures(number: string, source: string, dest: string)

  /** `move (\d+) from (\d+) to (\d+)` matches at offset `p` with captures
      `c`: the pattern's literals and the three non-empty runs of digits
      appear in turn, and the greedy last group is not followed by another
      digit. (The first two groups are followed by a space, so they are
      maximal too.) */
  predicate IsMatch(s: string, p: nat, c: Captures) {
    var e1 := p + 5 + |c.number|;
    var e2 := e1 + 6 + |c.source|;
    var e3 := e2 + 4 + |c.dest|;
    && |c.number| > 0 && |c.source| > 0 && |c.dest| > 0
    && AllDigits(c.number) && AllDigits(c.source) && AllDigits(c.dest)
    && e3 <= |s|
    && s[p..p + 5] == "move " && s[p + 5..e1] == c.number
    && s[e1..e1 + 6] == " from " && s[e1 + 6..e2] == c.source
    && s[e2..e2 + 4] == " to " && s[e2 + 4..e3] == c.dest
    && (e3 == |s| || !IsDigit(s[e3]))
  }

  /** The match of the move pattern that starts at offset `p`, if there is
      one (`MatchAtSound` and `MatchAtComplete` say it is exactly `IsMatch`). */
  function MatchAt(s: string, p: nat): (r: Option<Captures>)
    requires p <= |s|
    ensures r.Some? ==> AllDigits(r.value.number) && AllDigits(r.value.source) && AllDigits(r.value.dest)
    ensures r.Some? ==> |r.value.number| > 0 && |r.value.source| > 0 && |r.value.dest| > 0
  {
    match NumberAfter(s, "move ", p)
    case None => None
    case Some(e1) =>
      match NumberAfter(s, " from ", e1)
      case None => None
      case Some(e2) =>
        match NumberAfter(s, " to ", e2)
        case None => None
        case Some(e3) =>
          NumberAfterSpec(s, "move ", p);
          NumberAfterSpec(s, " from ", e1);
          NumberAfterSpec(s, " to ", e2);
          Some(Captures(s[p + 5..e1], s[e1 + 6..e2], s[e2 + 4..e3]))
  }

  /** What `MatchAt` finds is a match of the pattern. */
  lemma MatchAtSound(s: string, p: nat)
    requires p <= |s|
    ensures MatchAt(s, p).Some? ==> IsMatch(s, p, MatchAt(s, p).value)
  {
    if MatchAt(s, p).Some? {
      var e1 := NumberAfter(s, "move ", p).value;
      var e2 := NumberAfter(s, " from ", e1).value;
      var e3 := NumberAfter(s, " to ", e2).value;
      NumberAfterSpec(s, "move ", p);
      NumberAfterSpec(s, " from ", e1);
      NumberAfterSpec(s, " to ", e2);
      MatchAtEnds(s, p, e1, e2, e3);
      MatchOfEnds(s, p, e1, e2, e3);
    }
  }

  /** The pattern's literals at their places and digit runs between them make
      a match whose captures are those runs. */
  lemma MatchOfEnds(s: string, p: nat, e1: nat, e2: nat, e3: nat)
    requires p + 5 < e1 && e1 + 6 < e2 && e2 + 4 < e3 <= |s|
    requires OccursAt(s, "move ", p) && OccursAt(s, " from ", e1) && OccursAt(s, " to ", e2)
    requires AllDigits(s[p + 5..e1]) && AllDigits(s[e1 + 6..e2]) && AllDigits(s[e2 + 4..e3])
    requires e3 == |s| || !IsDigit(s[e3])
    ensures IsMatch(s, p, Captures(s[p + 5..e1], s[e1 + 6..e2], s[e2 + 4..e3]))
  {
  }

  /** Every match of the pattern at `p` is the one `MatchAt` finds. */
  lemma MatchAtComplete(s: string, p: nat, c: Captures)
    requires p <= |s| && IsMatch(s, p, c)
    ensures MatchAt(s, p) == Some(c)
  {
    var e1 := p + 5 + |c.number|;
    var e2 := e1 + 6 + |c.source|;
    var e3 := e2 + 4 + |c.dest|;
    NumberGroup(s, p, c);
    SourceGroup(s, p, c);
    DestGroup(s, p, c);
    CapturesOfMatch(s, p, c);
    assert Captures(s[p + 5..e1], s[e1 + 6..e2], s[e2 + 4..e3]) == c;
    MatchAtEnds(s, p, e1, e2, e3);
  }

  /** The captures of a match are the text between the pattern's literals. */
  lemma CapturesOfMatch(s: string, p: nat, c: Captures)
    requires IsMatch(s, p, c)
    ensures var e1 := p + 5 + |c.number|; var e2 := e1 + 6 + |c.source|; var e3 := e2 + 4 + |c.dest|;
      c == Captures(s[p + 5..e1], s[e1 + 6..e2], s[e2 + 4..e3])
  {
  }

  lemma NumberGroup(s: string, p: nat, c: Captures)
    requires p <= |s| && IsMatch(s, p, c)
    ensures NumberAfter(s, "move ", p) == Some(p + 5 + |c.number|)
  {
    var e1 := p + 5 + |c.number|;
    StartsWith(s, e1, " from ");
    GroupAt(s, "move ", p, c.number);
  }

  lemma SourceGroup(s: string, p: nat, c: Captures)
    requires p <= |s| && IsMatch(s, p, c)
    ensures NumberAfter(s, " from ", p + 5 + |c.number|) == Some(p + 5 + |c.number| + 6 + |c.source|)
  {
    var e2 := p + 5 + |c.number| + 6 + |c.source|;
    StartsWith(s, e2, " to ");
    GroupAt(s, " from ", p + 5 + |c.number|, c.source);
  }

  lemma DestGroup(s: string, p: nat, c: Captures)
    requires p <= |s| && IsMatch(s, p, c)
    ensures var e2 := p + 5 + |c.number| + 6 + |c.source|;
      NumberAfter(s, " to ", e2) == Some(e2 + 4 + |c.dest|)
  {
    GroupAt(s, " to ", p + 5 + |c.number| + 6 + |c.source|, c.dest);
  }

  /** The match `MatchAt` builds from the ends of the three numbers. */
  lemma MatchAtEnds(s: string, p: nat, e1: nat, e2: nat, e3: nat)
    requires p <= |s|
    requires NumberAfter(s, "move ", p) == Some(e1) && NumberAfter(s, " from ", e1) == Some(e2)
    requires NumberAfter(s, " to ", e2) == Some(e3)
    ensures MatchAt(s, p) == Some(Captures(s[p + 5..e1], s[e1 + 6..e2], s[e2 + 4..e3]))
  {
  }

  /** A literal found at `i` starts with its first character there. */
  lemma StartsWith(s: string, i: nat, lit: string)
    requires |lit| > 0 && i + |lit| <= |s| && s[i..i + |lit|] == lit
    ensures s[i] == lit[0]
  {
    assert s[i..i + |lit|][0] == s[i];
  }

  /** `lit` at offset `i`, then the digits `digits` and no more digits: the
      number ends right after them. */
  lemma GroupAt(s: string, lit: string, i: nat, digits: string)
    requires |digits| > 0 && AllDigits(digits)
    requires i + |lit| + |digits| <= |s|
    requires s[i..i + |lit|] == lit && s[i + |lit|..i + |lit| + |digits|] == digits
    requires i + |lit| + |digits| == |s| || !IsDigit(s[i + |lit| + |digits|])
    ensures NumberAfter(s, lit, i) == Some(i + |lit| + |digits|)
  {
    DigitsAt(s, i + |lit|, digits);
    NumberAt(s, lit, i, |digits|);
  }

  /** The characters of a slice that equals a run of digits are digits. */
  lemma DigitsAt(s: string, i: nat, digits: string)
    requires i + |digits| <= |s| && s[i..i + |digits|] == digits && AllDigits(digits)
    ensures forall k :: i <= k < i + |digits| ==> IsDigit(s[k])
  {
    forall k | i <= k < i + |digits|
      ensures IsDigit(s[k])
    {
      assert s[k] == digits[k - i];
    }
  }

  /** `lit` at offset `i`, then `n` digits and no more: the number ends `n`
      characters after the literal. */
  lemma NumberAt(s: string, lit: string, i: nat, n: nat)
    requires OccursAt(s, lit, i) && n > 0 && i + |lit| + n <= |s|
    requires forall k :: i + |lit| <= k < i + |lit| + n ==> IsDigit(s[k])
    requires i + |lit| + n == |s| || !IsDigit(s[i + |lit| + n])
    ensures NumberAfter(s, lit, i) == Some(i + |lit| + n)
  {
    DigitRunOf(s, i + |lit|, n);
  }

  /** Where `Regex::captures` finds its match: the leftmost offset at or
      after `from` where the pattern matches. */
  function Search(s: string, from: nat): (r: Option<nat>)
    requires from <= |s|
    ensures r.None? ==> forall p :: from <= p <= |s| ==> MatchAt(s, p).None?
    ensures r.Some? ==> from <= r.value <= |s| && MatchAt(s, r.value).Some?
    ensures r.Some? ==> forall q :: from <= q < r.value ==> MatchAt(s, q).None?
    decreases |s| - from
  {
    if MatchAt(s, from).Some? then Some(from)
    else if from == |s| then None
    else Search(s, from + 1)
  }

  /** The move a match describes, or the underflow of a 0 stack number. A
      run of ASCII digits always parses as a `usize` (the width limit aside). */
  function MoveOf(c: Captures): (r: Result<Move>)
    requires AllDigits(c.number) && AllDigits(c.source) && AllDigits(c.dest)
    ensures r.Ok? <==> DigitsValue(c.source) > 0 && DigitsValue(c.dest) > 0
  {
    var source := DigitsValue(c.source);
    var dest := DigitsValue(c.dest);
    if source == 0 || dest == 0 then Err("attempt to subtract with overflow")
    else Ok(Move(DigitsValue(c.number), source - 1, dest - 1))
  }

  /** `Move::from_str`: the first match of the pattern anywhere in the line.
      The stack numbers are 1-based, so a 0 makes the subtraction underflow. */
  function ParseMove(line: string): (r: Result<Move>)
    ensures (forall p :: 0 <= p <= |line| ==> MatchAt(line, p).None?) ==> r.Err?
    ensures Search(line, 0).Some? ==> r == MoveOf(MatchAt(line, Search(line, 0).value).value)
  {
    match Search(line, 0)
    case None => Err("Failed to match pattern")
    case Some(p) => MoveOf(MatchAt(line, p).value)
  }

  /** The instruction text for a move: the partner of `ParseMove`. */
  function MoveText(m: Move): string {
    "move " + NatToString(m.number) + " from " + NatToString(m.source + 1) + " to " + NatToString(m.dest + 1)
  }

  lemma {:induction false} DigitRunOf(s: string, i: nat, n: nat)
    requires i + n <= |s|
    requires forall k :: i <= k < i + n ==> IsDigit(s[k])
    requires i + n == |s| || !IsDigit(s[i + n])
    ensures DigitRun(s, i) == n
    decreases n
  {
    if n > 0 {
      DigitRunOf(s, i + 1, n - 1);
    }
  }

  /** The pattern's text, with non-digit text after it, matches at its start. */
  lemma MatchText(line: string, a: string, b: string, c: string, rest: string)
    requires |a| > 0 && |b| > 0 && |c| > 0 && AllDigits(a) && AllDigits(b) && AllDigits(c)
    requires rest == [] || !IsDigit(rest[0])
    requires line == "move " + a + " from " + b + " to " + c + rest
    ensures MatchAt(line, 0) == Some(Captures(a, b, c))
  {
    var e1 := 5 + |a|;
    var e2 := e1 + 6 + |b|;
    var e3 := e2 + 4 + |c|;
    var head := "move " + a + " from " + b + " to " + c;
    assert line == head + rest;
    assert |head| == e3;
    assert line[..e3] == head;
    SlicesOfHead(head, a, b, c);
    SliceOfPrefix(line, head, 0, 5);
    SliceOfPrefix(line, head, 5, e1);
    SliceOfPrefix(line, head, e1, e1 + 6);
    SliceOfPrefix(line, head, e1 + 6, e2);
    SliceOfPrefix(line, head, e2, e2 + 4);
    SliceOfPrefix(line, head, e2 + 4, e3);
    assert e3 == |line| || line[e3] == rest[0];
    MatchAtComplete(line, 0, Captures(a, b, c));
  }

  /** The pieces of the pattern's text. */
  lemma SlicesOfHead(head: string, a: string, b: string, c: string)
    requires head == "move " + a + " from " + b + " to " + c
    ensures var e1 := 5 + |a|; var e2 := e1 + 6 + |b|; var e3 := e2 + 4 + |c|;
      && |head| == e3
      && head[0..5] == "move " && head[5..e1] == a
      && head[e1..e1 + 6] == " from " && head[e1 + 6..e2] == b
      && head[e2..e2 + 4] == " to " && head[e2 + 4..e3] == c
  {
  }

  lemma SliceOfPrefix(line: string, head: string, i: nat, j: nat)
    requires i <= j <= |head| <= |line| && line[..|head|] == head
    ensures line[i..j] == head[i..j]
  {
    forall k | 0 <= k < j - i
      ensures line[i..j][k] == head[i..j][k]
    {
      assert line[i + k] == line[..|head|][i + k];
    }
  }

  /** Parsing the text of a move gives the move back, whatever non-digit text
      follows it on the line. */
  lemma ParseMoveText(m: Move, rest: string)
    requires rest == [] || !IsDigit(rest[0])
    ensures ParseMove(MoveText(m) + rest) == Ok(m)
  {
    var a, b, c := NatToString(m.number), NatToString(m.source + 1), NatToString(m.dest + 1);
    var line := MoveText(m) + rest;
    assert line == "move " + a + " from " + b + " to " + c + rest;
    MatchText(line, a, b, c, rest);
    assert Search(line, 0) == Some(0);
    MoveOfText(m);
  }

  lemma MoveOfText(m: Move)
    ensures MoveOf(Captures(NatToString(m.number), NatToString(m.source + 1), NatToString(m.dest + 1))) == Ok(m)
  {
    DigitsValueToString(m.number);
    DigitsValueToString(m.source + 1);
    DigitsValueToString(m.dest + 1);
  }

  /** `lines().map(str::parse).collect::<Result<Vec<_>, _>>()`. */
  function ParseMoves(lines: seq<string>): (r: Result<seq<Move>>)
    ensures r.Ok? <==> forall k :: 0 <= k < |lines| ==> ParseMove(lines[k]).Ok?
    ensures r.Ok? ==> |r.value| == |lines| && forall k :: 0 <= k < |lines| ==> r.value[k] == ParseMove(lines[k]).value
  {
    Collect(ParseMove, lines)
  }

  /** `input.split_once("\n\n")`: the text before and after the first blank
      line, or nothing when there is no blank line. */
  function Sections(input: string): (r: Option<(string, string)>)
    ensures r.None? <==> forall j: nat :: !OccursAt(input, "\n\n", j)
    ensures r.Some? ==> input == r.value.0 + "\n\n" + r.value.1
    ensures r.Some? ==> forall j: nat :: j < |r.value.0| ==> !OccursAt(input, "\n\n", j)
  {
    var i := FindFrom(input, "\n\n", 0);
    if i == |input| then None
    else
      assert input[i..i + 2] == "\n\n";
      assert input == input[..i] + "\n\n" + input[i + 2..];
      Some((input[..i], input[i + 2..]))
  }

  /** Every stack has a top crate. */
  predicate AllOccupied(state: State) {
    forall k :: 0 <= k < |state.stacks| ==> |state.stacks[k]| > 0
  }

  /** The drawing `d` and the move lines `t` run without a panic: both parse,
      the moves apply in order, and no stack ends up empty. */
  predicate Runs(d: string, t: string) {
    && ParseState(d).Ok? && ParseMoves(Lines(t)).Ok?
    && Applicable(ParseState(d).value, ParseMoves(Lines(t)).value)
    && AllOccupied(Apply(ParseState(d).value, ParseMoves(Lines(t)).value))
  }

  /** The whole program, without reading the file and printing: the drawing
      and the moves are separated by the first blank line; a missing blank
      line, a line that does not parse, a move out of range and an empty stack
      at the end are panics. Otherwise the answer is the top crate of every
      stack after the moves. */
  function Solve(input: string): (r: Result<string>)
    ensures Sections(input).None? ==> r.Err?
    ensures r.Ok? <==> Sections(input).Some? && Runs(Sections(input).value.0, Sections(input).value.1)
    ensures r.Ok? ==> r.value == Summary(Apply(ParseState(Sections(input).value.0).value,
      ParseMoves(Lines(Sections(input).value.1)).value))
  {
    match Sections(input)
    case None => Err("called `Option::unwrap()` on a `None` value")
    case Some((d, t)) =>
      var state :- ParseState(d);
      var moves :- ParseMoves(Lines(t));
      if !Applicable(state, moves) then Err("index out of bounds")
      else
        var last := Apply(state, moves);
        if !AllOccupied(last) then Err("called `Option::unwrap()` on a `None` value")
        else Ok(Summary(last))
  }

  /** The instruction lines for a list of moves. */
  function MovesText(moves: seq<Move>): string
    requires |moves| >= 1
  {
    Join(seq(|moves|, k requires 0 <= k < |moves| => MoveText(moves[k])), '\n')
  }

  /** A move's text is a single non-empty line. */
  lemma MoveTextIsLine(m: Move)
    ensures |MoveText(m)| > 0 && '\n' !in MoveText(m)
  {
    var a, b, c := NatToString(m.number), NatToString(m.source + 1), NatToString(m.dest + 1);
    assert '\n' !in a && '\n' !in b && '\n' !in c by {
      assert forall k :: 0 <= k < |a| ==> IsDigit(a[k]);
      assert forall k :: 0 <= k < |b| ==> IsDigit(b[k]);
      assert forall k :: 0 <= k < |c| ==> IsDigit(c[k]);
    }
  }

  /** The drawing is a run of non-empty lines, so the first blank line of an
      input that starts with it is the one right after it. */
  lemma DrawingHasNoBlankLine(state: State)
    requires |state.stacks| >= 1 && NoLineBreaks(state.stacks)
    ensures forall j :: !OccursAt(Drawing(state), "\n\n", j)
    ensures var d := Drawing(state); |d| > 0 && d[|d| - 1] != '\n'
  {
    var stacks := state.stacks;
    var lines := DrawnRows(stacks) + [LabelLine(|stacks|)];
    LabelLineWords(|stacks|);
    var h := Height(stacks);
    forall j | 0 <= j < h
      ensures |lines[j]| > 0 && '\n' !in lines[j]
    {
      RowIsLine(stacks, h - 1 - j);
    }
    NoBlankLineInJoin(lines);
  }

  /** An input made of a drawing, a blank line and move lines splits at that
      blank line. */
  lemma SplitInput(d: string, t: string)
    requires forall j :: !OccursAt(d, "\n\n", j)
    requires |d| > 0 && d[|d| - 1] != '\n'
    ensures Sections(d + "\n\n" + t) == Some((d, t))
  {
    var input := d + "\n\n" + t;
    assert OccursAt(input, "\n\n", |d|) by {
      assert input[|d|..|d| + 2] == "\n\n";
    }
    forall j | 0 <= j < |d|
      ensures !OccursAt(input, "\n\n", j)
    {
      if j + 2 <= |d| {
        assert input[j..j + 2] == d[j..j + 2];
        assert !OccursAt(d, "\n\n", j);
      } else {
        assert input[j] == d[|d| - 1];
        assert input[j..j + 2][0] == input[j];
      }
    }
    FindFirst(input, "\n\n", |d|);
    assert input[..|d|] == d;
    assert input[|d| + 2..] == t;
  }

  /** The move lines are read back as the moves. */
  lemma ParseMovesText(moves: seq<Move>)
    requires |moves| >= 1
    ensures ParseMoves(Lines(MovesText(moves))) == Ok(moves)
  {
    var texts := seq(|moves|, k requires 0 <= k < |moves| => MoveText(moves[k]));
    forall k | 0 <= k < |moves|
      ensures |texts[k]| > 0 && '\n' !in texts[k] && ParseMove(texts[k]) == Ok(moves[k])
    {
      MoveTextIsLine(moves[k]);
      ParseMoveText(moves[k], "");
      assert MoveText(moves[k]) + "" == MoveText(moves[k]);
    }
    LinesOfJoin(texts);
    CollectOk(ParseMove, texts, moves);
  }

  /** End to end: the drawing of a state, a blank line and the text of some
      moves give the top crates of the stacks the moves leave. */
  lemma SolveDrawing(state: State, moves: seq<Move>)
    requires |state.stacks| >= 1 && NoLineBreaks(state.stacks)
    requires |moves| >= 1 && Applicable(state, moves)
    requires forall k :: 0 <= k < |Apply(state, moves).stacks| ==> Apply(state, moves).stacks[k] != []
    ensures Solve(Drawing(state) + "\n\n" + MovesText(moves)) == Ok(Summary(Apply(state, moves)))
  {
    var d, t := Drawing(state), MovesText(moves);
    DrawingHasNoBlankLine(state);
    SplitInput(d, t);
    ParseDrawing(state);
    ParseMovesText(moves);
    SolveParts(d + "\n\n" + t, d, t, state, moves);
  }

  /** `Solve` on an input whose two sections parse as `state` and `moves`. */
  lemma SolveParts(input: string, d: string, t: string, state: State, moves: seq<Move>)
    requires Sections(input) == Some((d, t))
    requires ParseState(d) == Ok(state) && ParseMoves(Lines(t)) == Ok(moves) && Applicable(state, moves)
    requires forall k :: 0 <= k < |Apply(state, moves).stacks| ==> Apply(state, moves).stacks[k] != []
    ensures Solve(input) == Ok(Summary(Apply(state, moves)))
  {
  }

  lemma ReverseExamples()
    ensures Reverse("D") == "D" && Reverse("M") == "M" && Reverse("MC") == "CM" && Reverse("ZND") == "DNZ"
  {
    ReverseOne('D');
    ReverseOne('M');
    ReverseTwo('M', 'C');
    ReverseThree('Z', 'N', 'D');
  }

  lemma ReverseOne(x: char)
    ensures Reverse([x]) == [x]
  {
    assert [x][1..] == [];
  }

  lemma ReverseTwo(x: char, y: char)
    ensures Reverse([x, y]) == [y, x]
  {
    assert [x, y][1..] == [y];
    ReverseOne(y);
  }

  lemma ReverseThree(x: char, y: char, z: char)
    ensures Reverse([x, y, z]) == [z, y, x]
  {
    assert [x, y, z][1..] == [y, z];
    ReverseTwo(y, z);
  }

  lemma ExampleStep1()
    ensures ApplyMove(State(["ZN", "MCD", "P"]), Move(1, 1, 0)) == State(["ZND", "MC", "P"])
  {
    ReverseExamples();
    assert "MCD"[..2] == "MC" && "MCD"[2..] == "D";
    assert "ZN" + "D" == "ZND";
  }

  lemma ExampleStep2()
    ensures ApplyMove(State(["ZND", "MC", "P"]), Move(3, 0, 2)) == State(["", "MC", "PDNZ"])
  {
    ReverseExamples();
    assert "ZND"[..0] == "" && "ZND"[0..] == "ZND";
    assert "P" + "DNZ" == "PDNZ";
  }

  lemma ExampleStep3()
    ensures ApplyMove(State(["", "MC", "PDNZ"]), Move(2, 1, 0)) == State(["CM", "", "PDNZ"])
  {
    ReverseExamples();
    assert "MC"[..0] == "" && "MC"[0..] == "MC";
    assert "" + "CM" == "CM";
  }

  lemma ExampleStep4()
    ensures ApplyMove(State(["CM", "", "PDNZ"]), Move(1, 0, 1)) == State(["C", "M", "PDNZ"])
  {
    ReverseExamples();
    assert "CM"[..1] == "C" && "CM"[1..] == "M";
    assert "" + "M" == "M";
  }

  /** The worked example: three stacks and four moves leave `CMZ` on top. */
  lemma Example(state: State, moves: seq<Move>)
    requires state == State(["ZN", "MCD", "P"])
    requires moves == [Move(1, 1, 0), Move(3, 0, 2), Move(2, 1, 0), Move(1, 0, 1)]
    ensures Applicable(state, moves)
    ensures Applicable(state, moves) && var last := Apply(state, moves);
      AllOccupied(last) && Summary(last) == "CMZ"
  {
    ExampleFrom0();
    var last := State(["C", "M", "PDNZ"]);
    assert Apply(state, moves) == last;
    ExampleSummary(last);
  }

  lemma ExampleSummary(last: State)
    requires last == State(["C", "M", "PDNZ"])
    ensures AllOccupied(last) && Summary(last) == "CMZ"
  {
    assert |last.stacks[0]| > 0 && |last.stacks[1]| > 0 && |last.stacks[2]| > 0;
    assert last.stacks[1..] == ["M", "PDNZ"];
    assert last.stacks[1..][1..] == ["PDNZ"];
  }

  lemma ExampleFrom3()
    ensures Applicable(State(["CM", "", "PDNZ"]), [Move(1, 0, 1)])
    ensures Apply(State(["CM", "", "PDNZ"]), [Move(1, 0, 1)]) == State(["C", "M", "PDNZ"])
  {
    ExampleStep4();
    assert [Move(1, 0, 1)][1..] == [];
  }

  lemma ExampleFrom2()
    ensures Applicable(State(["", "MC", "PDNZ"]), [Move(2, 1, 0), Move(1, 0, 1)])
    ensures Apply(State(["", "MC", "PDNZ"]), [Move(2, 1, 0), Move(1, 0, 1)]) == State(["C", "M", "PDNZ"])
  {
    ExampleStep3();
    ExampleFrom3();
    assert [Move(2, 1, 0), Move(1, 0, 1)][1..] == [Move(1, 0, 1)];
  }

  lemma ExampleFrom1()
    ensures Applicable(State(["ZND", "MC", "P"]), [Move(3, 0, 2), Move(2, 1, 0), Move(1, 0, 1)])
    ensures Apply(State(["ZND", "MC", "P"]), [Move(3, 0, 2), Move(2, 1, 0), Move(1, 0, 1)]) == State(["C", "M", "PDNZ"])
  {
    ExampleStep2();
    ExampleFrom2();
    assert [Move(3, 0, 2), Move(2, 1, 0), Move(1, 0, 1)][1..] == [Move(2, 1, 0), Move(1, 0, 1)];
  }

  lemma ExampleFrom0()
    ensures Applicable(State(["ZN", "MCD", "P"]), [Move(1, 1, 0), Move(3, 0, 2), Move(2, 1, 0), Move(1, 0, 1)])
    ensures Apply(State(["ZN", "MCD", "P"]), [Move(1, 1, 0), Move(3, 0, 2), Move(2, 1, 0), Move(1, 0, 1)]) == State(["C", "M", "PDNZ"])
  {
    ExampleStep1();
    ExampleFrom1();
    assert [Move(1, 1, 0), Move(3, 0, 2), Move(2, 1, 0), Move(1, 0, 1)][1..] == [Move(3, 0, 2), Move(2, 1, 0), Move(1, 0, 1)];
  }
}
