/** Day 7: a terminal transcript of `$ cd` and `$ ls` commands is walked
    with a cursor; every directory's total size is recorded when the walk
    leaves it (on `$ cd ..` or at the end of the transcript). Part 1 sums the
    small sizes, part 2 picks the smallest directory whose removal frees
    enough disk space. */
module Day7 {
  import opened Results
  import opened Text
  import opened Seqs

  const Unreachable := "internal error: entered unreachable code"

  // ----- The transcript walk -----

  /** A line as the walk sees it: `line.split(" ")`. Splitting is pure, so
      the lines are split once, up front, rather than as the cursor reaches
      them. */
  type Words = seq<string>

  function Tokenize(lines: seq<string>): (r: seq<Words>)
    ensures |r| == |lines|
  {
    if lines == [] then [] else [Split(lines[0], ' ')] + Tokenize(lines[1..])
  }

  /** Each line is split on its own. */
  lemma {:induction false} TokenizeEach(lines: seq<string>)
    ensures forall k :: 0 <= k < |lines| ==> Tokenize(lines)[k] == Split(lines[k], ' ')
    decreases |lines|
  {
    if lines != [] {
      TokenizeEach(lines[1..]);
    }
  }

  /** What `visit_directory` has built when its loop ends: the directory's
      size, the index of the first line it did not consume, and the sizes
      recorded so far (the `sizes` vector). */
  datatype Frame = Frame(size: nat, next: nat, recorded: seq<nat>)

  /** How the listing loop treats a line, by the `match` on its words:
      `dir <name>` adds nothing, any other two-word line adds its parsed
      size (aborting when that fails), a command of any other length ends
      the listing, and anything else is unreachable. */
  datatype Entry = Entry(size: nat) | EndOfListing | Malformed(error: string)

  function Classify(words: Words): Entry {
    if |words| == 2 && words[0] == "dir" then Entry(0)
    else if |words| == 2 then
      match ParseNat(words[0])
      case Ok(n) => Entry(n)
      case Err(e) => Malformed(e)
    else if |words| >= 1 && words[0] == "$" then EndOfListing
    else Malformed(Unreachable)
  }

  /** The inner `while let Some(line) = lines.peek()` loop of an `ls`
      listing. The result is the size so far and the index of the first
      unconsumed line, which is a command line or the end of the transcript. */
  function Listing(lines: seq<Words>, pos: nat, size: nat): (r: Result<(nat, nat)>)
    requires pos <= |lines|
    ensures r.Ok? ==> size <= r.value.0 && pos <= r.value.1 <= |lines|
    ensures r.Ok? && r.value.1 < |lines| ==> |lines[r.value.1]| !in {0, 2} && lines[r.value.1][0] == "$"
    ensures r.Err? ==> exists k :: pos <= k < |lines| && Classify(lines[k]).Malformed?
    decreases |lines| - pos, 1
  {
    if pos == |lines| then Ok((size, pos)) else ListingLine(lines, pos, size)
  }

  /** One line of a listing, before the end of the transcript. */
  function ListingLine(lines: seq<Words>, pos: nat, size: nat): (r: Result<(nat, nat)>)
    requires pos < |lines|
    ensures r.Ok? ==> size <= r.value.0 && pos <= r.value.1 <= |lines|
    ensures r.Ok? && r.value.1 < |lines| ==> |lines[r.value.1]| !in {0, 2} && lines[r.value.1][0] == "$"
    ensures r.Err? ==> exists k :: pos <= k < |lines| && Classify(lines[k]).Malformed?
    decreases |lines| - pos, 0
  {
    match Classify(lines[pos])
    case Entry(n) => Listing(lines, pos + 1, size + n)
    case EndOfListing => Ok((size, pos))
    case Malformed(e) => Err(e)
  }

  /** How the outer loop of `visit_directory` treats a line: `$ cd ..`
      leaves the directory, `$ cd <dir>` enters a subdirectory, `$ ls` reads
      a listing, and anything else is unreachable. */
  datatype Command = Up | Down | List | Unknown

  function CommandOf(words: Words): Command {
    if words == ["$", "cd", ".."] then Up
    else if |words| == 3 && words[0] == "$" && words[1] == "cd" then Down
    else if words == ["$", "ls"] then List
    else Unknown
  }

  /** The `while let Some(line) = lines.next()` loop of `visit_directory`,
      entered at line `pos` with the directory's size so far and the sizes
      recorded so far. `$ cd ..` and the end of the transcript record the
      size and return; `$ cd <dir>` visits the subdirectory in a fresh frame
      and adds its size; `$ ls` reads the listing. */
  function Run(lines: seq<Words>, pos: nat, size: nat, recorded: seq<nat>): (r: Result<Frame>)
    requires pos <= |lines|
    ensures r.Ok? ==> pos <= r.value.next <= |lines| && size <= r.value.size
    decreases |lines| - pos, 1
  {
    if pos == |lines| then Ok(Frame(size, pos, recorded + [size]))
    else Step(lines, pos, size, recorded)
  }

  /** One command of the loop, at a line `pos` before the end. */
  function Step(lines: seq<Words>, pos: nat, size: nat, recorded: seq<nat>): (r: Result<Frame>)
    requires pos < |lines|
    ensures r.Ok? ==> pos < r.value.next <= |lines| && size <= r.value.size
    decreases |lines| - pos, 0
  {
    var command := CommandOf(lines[pos]);
    if command.Up? then Ok(Frame(size, pos + 1, recorded + [size]))
    else if command.Down? then
      var sub :- Run(lines, pos + 1, 0, []);
      Run(lines, sub.next, size + sub.size, recorded + sub.recorded)
    else if command.List? then
      var listed :- Listing(lines, pos + 1, size);
      Run(lines, listed.1, listed.0, recorded)
    else Err(Unreachable)
  }

  /** A frame only appends to the recorded sizes; the last size it appends
      is its own, and every size it appends is at most its own: a directory
      contains its subdirectories. */
  lemma {:induction false} RunRecords(lines: seq<Words>, pos: nat, size: nat, recorded: seq<nat>)
    requires pos <= |lines| && Run(lines, pos, size, recorded).Ok?
    ensures var f := Run(lines, pos, size, recorded).value;
      && |recorded| < |f.recorded| && f.recorded[..|recorded|] == recorded
      && f.recorded[|f.recorded| - 1] == f.size
      && forall k :: |recorded| <= k < |f.recorded| ==> f.recorded[k] <= f.size
    decreases |lines| - pos
  {
    if pos < |lines| {
      var command := CommandOf(lines[pos]);
      if command.Down? {
        var sub := Run(lines, pos + 1, 0, []).value;
        RunRecords(lines, pos + 1, 0, []);
        RunRecords(lines, sub.next, size + sub.size, recorded + sub.recorded);
        NestedFrame(recorded, sub, Run(lines, sub.next, size + sub.size, recorded + sub.recorded).value);
      } else if command.List? {
        var listed := Listing(lines, pos + 1, size).value;
        RunRecords(lines, listed.1, listed.0, recorded);
      }
    }
  }

  /** The sizes a subdirectory's frame records stay below the size of the
      enclosing frame, which continues after them. */
  lemma NestedFrame(recorded: seq<nat>, sub: Frame, out: Frame)
    requires |sub.recorded| >= 1 && forall k :: 0 <= k < |sub.recorded| ==> sub.recorded[k] <= sub.size
    requires sub.size <= out.size
    requires |recorded + sub.recorded| < |out.recorded| && out.recorded[..|recorded + sub.recorded|] == recorded + sub.recorded
    requires forall k :: |recorded + sub.recorded| <= k < |out.recorded| ==> out.recorded[k] <= out.size
    ensures |recorded| < |out.recorded| && out.recorded[..|recorded|] == recorded
    ensures forall k :: |recorded| <= k < |out.recorded| ==> out.recorded[k] <= out.size
  {
    var n := |recorded|;
    assert out.recorded[..n] == (recorded + sub.recorded)[..n] == recorded;
    forall k | n <= k < |out.recorded|
      ensures out.recorded[k] <= out.size
    {
      if k < n + |sub.recorded| {
        assert out.recorded[k] == (recorded + sub.recorded)[k] == sub.recorded[k - n];
      }
    }
  }

  /** `visit_directory` called at line `pos`: a fresh frame. */
  function Visit(lines: seq<Words>, pos: nat): (r: Result<Frame>)
    requires pos <= |lines|
    ensures r.Ok? ==> |r.value.recorded| >= 1 && r.value.recorded[|r.value.recorded| - 1] == r.value.size
    ensures r.Ok? ==> forall k :: 0 <= k < |r.value.recorded| ==> r.value.recorded[k] <= r.value.size
  {
    if Run(lines, pos, 0, []).Ok? then
      RunRecords(lines, pos, 0, []);
      Run(lines, pos, 0, [])
    else Run(lines, pos, 0, [])
  }

  /** The walk of a whole input from its first line. */
  function Walk(input: string): (r: Result<Frame>)
    ensures r.Ok? ==> IsFrame(r.value)
  {
    Visit(Tokenize(Lines(input)), 0)
  }

  /** What every finished frame satisfies: its own size is recorded last
      and bounds every recorded size. */
  predicate IsFrame(f: Frame) {
    && |f.recorded| >= 1 && f.recorded[|f.recorded| - 1] == f.size
    && forall k :: 0 <= k < |f.recorded| ==> f.recorded[k] <= f.size
  }

  /** `evaluate`: the walk from the first line, its recorded sizes sorted. The
      outermost frame is the one that sees `$ cd /`, so the root's size is
      recorded twice, once by the root's frame and once by the outermost. */
  function Evaluate(input: string): (r: Result<seq<nat>>)
    ensures r.Ok? <==> Walk(input).Ok?
    ensures r.Ok? ==> Sorted(r.value) && multiset(r.value) == multiset(Walk(input).value.recorded)
    ensures r.Ok? ==> |r.value| >= 1 && r.value[|r.value| - 1] == Walk(input).value.size
  {
    match Walk(input)
    case Ok(top) => Ok(SortFrame(top))
    case Err(e) => Err(e)
  }

  /** The sizes a frame recorded, sorted: the frame's own size comes last. */
  function SortFrame(top: Frame): (r: seq<nat>)
    requires IsFrame(top)
    ensures Sorted(r) && multiset(r) == multiset(top.recorded)
    ensures |r| >= 1 && r[|r| - 1] == top.size
  {
    var sorted := Sort(top.recorded);
    LastOfSortedIsMax(top.recorded, sorted, top.size);
    sorted
  }

  /** The last element of a sorted permutation is the maximum. */
  lemma LastOfSortedIsMax(s: seq<nat>, sorted: seq<nat>, m: nat)
    requires |s| >= 1 && s[|s| - 1] == m && forall k :: 0 <= k < |s| ==> s[k] <= m
    requires Sorted(sorted) && multiset(sorted) == multiset(s)
    ensures |sorted| >= 1 && sorted[|sorted| - 1] == m
  {
    assert |sorted| == |multiset(s)| == |s|;
    var last := sorted[|sorted| - 1];
    assert last in multiset(s);
    assert m in multiset(sorted);
    var i :| 0 <= i < |sorted| && sorted[i] == m;
  }

  // ----- Directory trees and their transcripts -----

  datatype File = File(name: string, size: nat)

  /** A directory: its files and its subdirectories, and the order in which
      `$ ls` lists them (see `Interleave`: `true` lists the next
      subdirectory, `false` the next file). */
  datatype Dir = Dir(name: string, files: seq<File>, subdirs: seq<Dir>, order: seq<bool>)

  function FileTotal(files: seq<File>): nat {
    if files == [] then 0 else files[0].size + FileTotal(files[1..])
  }

  /** The total size of a directory: its files and, recursively, its
      subdirectories. */
  function Size(d: Dir): nat
    decreases d, 1
  {
    FileTotal(d.files) + SubSizes(d, 0)
  }

  /** The sizes of the subdirectories from the `i`-th on. */
  function SubSizes(d: Dir, i: nat): nat
    requires i <= |d.subdirs|
    decreases d, 0, |d.subdirs| - i
  {
    if i == |d.subdirs| then 0 else Size(d.subdirs[i]) + SubSizes(d, i + 1)
  }

  /** The size of every directory in the tree, children before parents. */
  function Recorded(d: Dir): (r: seq<nat>)
    decreases d, 1
  {
    SubRecorded(d, 0) + [Size(d)]
  }

  function SubRecorded(d: Dir, i: nat): seq<nat>
    requires i <= |d.subdirs|
    decreases d, 0, |d.subdirs| - i
  {
    if i == |d.subdirs| then [] else Recorded(d.subdirs[i]) + SubRecorded(d, i + 1)
  }

  /** The number of directories in the tree. */
  function Count(d: Dir): nat
    decreases d, 1
  {
    1 + SubCount(d, 0)
  }

  function SubCount(d: Dir, i: nat): nat
    requires i <= |d.subdirs|
    decreases d, 0, |d.subdirs| - i
  {
    if i == |d.subdirs| then 0 else Count(d.subdirs[i]) + SubCount(d, i + 1)
  }

  /** Names that the transcript can carry: no spaces or line breaks, and no
      directory called `..`. */
  predicate WellNamed(d: Dir)
    decreases d
  {
    && ' ' !in d.name && '\n' !in d.name && d.name != ".."
    && (forall k :: 0 <= k < |d.files| ==> ' ' !in d.files[k].name && '\n' !in d.files[k].name)
    && (forall k :: 0 <= k < |d.subdirs| ==> WellNamed(d.subdirs[k]))
  }

  function DirLine(d: Dir): string {
    "dir " + d.name
  }

  function FileLine(f: File): string {
    NatToString(f.size) + " " + f.name
  }

  function DirLines(ds: seq<Dir>): (lines: seq<string>)
    ensures |lines| == |ds| && forall k :: 0 <= k < |ds| ==> lines[k] == DirLine(ds[k])
  {
    if ds == [] then [] else [DirLine(ds[0])] + DirLines(ds[1..])
  }

  function FileLines(fs: seq<File>): (lines: seq<string>)
    ensures |lines| == |fs| && forall k :: 0 <= k < |fs| ==> lines[k] == FileLine(fs[k])
  {
    if fs == [] then [] else [FileLine(fs[0])] + FileLines(fs[1..])
  }

  /** Two sequences merged in the order `order` gives: `true` takes the next
      element of `xs`, `false` the next one of `ys`; a flag whose side is
      used up is skipped, and what is left follows, `xs` first. Every merge
      that keeps each side's own order is one of these. */
  function Interleave<T>(order: seq<bool>, xs: seq<T>, ys: seq<T>): (r: seq<T>)
    ensures |r| == |xs| + |ys|
    decreases |order|
  {
    if order == [] then xs + ys
    else if order[0] && xs != [] then [xs[0]] + Interleave(order[1..], xs[1..], ys)
    else if !order[0] && ys != [] then [ys[0]] + Interleave(order[1..], xs, ys[1..])
    else Interleave(order[1..], xs, ys)
  }

  /** The listing of a directory: its `dir` lines and its file lines, mixed
      in the directory's own order. */
  function ListingLines(d: Dir): (lines: seq<string>)
    ensures |lines| == |d.subdirs| + |d.files|
  {
    Interleave(d.order, DirLines(d.subdirs), FileLines(d.files))
  }

  /** A merge holds the elements of both sides and nothing else. */
  lemma {:induction false} InterleaveElements<T>(order: seq<bool>, xs: seq<T>, ys: seq<T>)
    ensures multiset(Interleave(order, xs, ys)) == multiset(xs) + multiset(ys)
    decreases |order|
  {
    if order == [] {
    } else if order[0] && xs != [] {
      var rest := Interleave(order[1..], xs[1..], ys);
      assert Interleave(order, xs, ys) == [xs[0]] + rest;
      InterleaveElements(order[1..], xs[1..], ys);
      assert xs == [xs[0]] + xs[1..];
      assert multiset(xs) == multiset{xs[0]} + multiset(xs[1..]);
    } else if !order[0] && ys != [] {
      var rest := Interleave(order[1..], xs, ys[1..]);
      assert Interleave(order, xs, ys) == [ys[0]] + rest;
      InterleaveElements(order[1..], xs, ys[1..]);
      assert ys == [ys[0]] + ys[1..];
      assert multiset(ys) == multiset{ys[0]} + multiset(ys[1..]);
    } else {
      InterleaveElements(order[1..], xs, ys);
    }
  }

  /** A transcript that explores a directory: `$ ls`, the listing, then each
      subdirectory entered with `$ cd`, explored and left with `$ cd ..`. */
  function Transcript(d: Dir): seq<string>
    decreases d, 1
  {
    ["$ ls"] + ListingLines(d) + SubTranscripts(d, 0)
  }

  function SubTranscripts(d: Dir, i: nat): seq<string>
    requires i <= |d.subdirs|
    decreases d, 0, |d.subdirs| - i
  {
    if i == |d.subdirs| then []
    else ["$ cd " + d.subdirs[i].name] + Transcript(d.subdirs[i]) + ["$ cd .."] + SubTranscripts(d, i + 1)
  }

  /** The same transcript as the walk sees it: each line split into words. */
  function DirEntries(ds: seq<Dir>): (r: seq<Words>)
    ensures |r| == |ds|
  {
    if ds == [] then [] else [["dir", ds[0].name]] + DirEntries(ds[1..])
  }

  function FileEntries(fs: seq<File>): (r: seq<Words>)
    ensures |r| == |fs|
  {
    if fs == [] then [] else [[NatToString(fs[0].size), fs[0].name]] + FileEntries(fs[1..])
  }

  function ListingWords(d: Dir): (r: seq<Words>)
    ensures |r| == |d.subdirs| + |d.files|
  {
    Interleave(d.order, DirEntries(d.subdirs), FileEntries(d.files))
  }

  function TranscriptWords(d: Dir): seq<Words>
    decreases d, 1
  {
    [["$", "ls"]] + ListingWords(d) + SubTranscriptWords(d, 0)
  }

  function SubTranscriptWords(d: Dir, i: nat): seq<Words>
    requires i <= |d.subdirs|
    decreases d, 0, |d.subdirs| - i
  {
    if i == |d.subdirs| then []
    else [["$", "cd", d.subdirs[i].name]] + TranscriptWords(d.subdirs[i]) + [["$", "cd", ".."]] + SubTranscriptWords(d, i + 1)
  }

  // ----- Splitting a transcript into words -----

  lemma SplitPair(a: string, b: string)
    requires ' ' !in a && ' ' !in b
    ensures Split(a + " " + b, ' ') == [a, b]
  {
    assert Join([a, b], ' ') == a + " " + b;
    SplitJoin([a, b], ' ');
  }

  lemma SplitThree(a: string, b: string, c: string)
    requires ' ' !in a && ' ' !in b && ' ' !in c
    ensures Split(a + " " + b + " " + c, ' ') == [a, b, c]
  {
    assert [a, b, c][1..] == [b, c];
    assert Join([b, c], ' ') == b + " " + c;
    assert Join([a, b, c], ' ') == a + " " + b + " " + c;
    SplitJoin([a, b, c], ' ');
  }

  lemma SplitCd(name: string)
    requires ' ' !in name
    ensures Split("$ cd " + name, ' ') == ["$", "cd", name]
  {
    assert "$ cd " + name == "$" + " " + "cd" + " " + name;
    SplitThree("$", "cd", name);
  }

  lemma SplitUp()
    ensures Split("$ cd ..", ' ') == ["$", "cd", ".."]
  {
    assert Join(["$", "cd", ".."], ' ') == "$ cd ..";
    SplitJoin(["$", "cd", ".."], ' ');
  }

  lemma SplitLs()
    ensures Split("$ ls", ' ') == ["$", "ls"]
  {
    assert Join(["$", "ls"], ' ') == "$ ls";
    SplitJoin(["$", "ls"], ' ');
  }

  lemma FileLineWords(f: File)
    requires ' ' !in f.name
    ensures Split(FileLine(f), ' ') == [NatToString(f.size), f.name]
  {
    var digits := NatToString(f.size);
    assert ' ' !in digits by {
      assert forall k :: 0 <= k < |digits| ==> IsDigit(digits[k]);
    }
    SplitPair(digits, f.name);
  }

  lemma {:induction false} TokenizeConcat(a: seq<string>, b: seq<string>)
    ensures Tokenize(a + b) == Tokenize(a) + Tokenize(b)
    decreases |a|
  {
    if a == [] {
      assert a + b == b;
    } else {
      var first := [Split(a[0], ' ')];
      assert (a + b)[0] == a[0] && (a + b)[1..] == a[1..] + b;
      TokenizeConcat(a[1..], b);
      assert Tokenize(a + b) == first + (Tokenize(a[1..]) + Tokenize(b));
      assert Tokenize(a) == first + Tokenize(a[1..]);
    }
  }

  lemma {:induction false} TokenizeDirLines(ds: seq<Dir>)
    requires forall k :: 0 <= k < |ds| ==> ' ' !in ds[k].name
    ensures Tokenize(DirLines(ds)) == DirEntries(ds)
    decreases |ds|
  {
    if ds != [] {
      var head, rest := [DirLine(ds[0])], DirLines(ds[1..]);
      assert DirLines(ds) == head + rest;
      TokenizeConcat(head, rest);
      assert DirLine(ds[0]) == "dir" + " " + ds[0].name;
      SplitPair("dir", ds[0].name);
      assert Tokenize(head) == [["dir", ds[0].name]];
      TokenizeDirLines(ds[1..]);
      assert DirEntries(ds) == [["dir", ds[0].name]] + DirEntries(ds[1..]);
    }
  }

  lemma {:induction false} TokenizeFileLines(fs: seq<File>)
    requires forall k :: 0 <= k < |fs| ==> ' ' !in fs[k].name
    ensures Tokenize(FileLines(fs)) == FileEntries(fs)
    decreases |fs|
  {
    if fs != [] {
      var head, rest := [FileLine(fs[0])], FileLines(fs[1..]);
      assert FileLines(fs) == head + rest;
      TokenizeConcat(head, rest);
      FileLineWords(fs[0]);
      assert Tokenize(head) == [[NatToString(fs[0].size), fs[0].name]];
      TokenizeFileLines(fs[1..]);
      assert FileEntries(fs) == [[NatToString(fs[0].size), fs[0].name]] + FileEntries(fs[1..]);
    }
  }

  /** Splitting lines into words commutes with merging them. */
  lemma {:induction false} TokenizeInterleave(order: seq<bool>, xs: seq<string>, ys: seq<string>)
    ensures Tokenize(Interleave(order, xs, ys)) == Interleave(order, Tokenize(xs), Tokenize(ys))
    decreases |order|
  {
    var txs, tys := Tokenize(xs), Tokenize(ys);
    if order == [] {
      TokenizeConcat(xs, ys);
    } else if order[0] && xs != [] {
      var rest := Interleave(order[1..], xs[1..], ys);
      TokenizeConcat([xs[0]], rest);
      TokenizeInterleave(order[1..], xs[1..], ys);
      assert txs == [Split(xs[0], ' ')] + Tokenize(xs[1..]);
    } else if !order[0] && ys != [] {
      var rest := Interleave(order[1..], xs, ys[1..]);
      TokenizeConcat([ys[0]], rest);
      TokenizeInterleave(order[1..], xs, ys[1..]);
      assert tys == [Split(ys[0], ' ')] + Tokenize(ys[1..]);
    } else {
      TokenizeInterleave(order[1..], xs, ys);
    }
  }

  lemma TokenizeConcat3(a: seq<string>, b: seq<string>, c: seq<string>)
    ensures Tokenize(a + b + c) == Tokenize(a) + Tokenize(b) + Tokenize(c)
  {
    TokenizeConcat(a + b, c);
    TokenizeConcat(a, b);
  }

  lemma TokenizeConcat4(a: seq<string>, b: seq<string>, c: seq<string>, e: seq<string>)
    ensures Tokenize(a + b + c + e) == Tokenize(a) + Tokenize(b) + Tokenize(c) + Tokenize(e)
  {
    TokenizeConcat(a + b + c, e);
    TokenizeConcat(a + b, c);
    TokenizeConcat(a, b);
  }

  lemma TokenizeLs()
    ensures Tokenize(["$ ls"]) == [["$", "ls"]]
  {
    SplitLs();
  }

  lemma TokenizeCd(name: string)
    requires ' ' !in name
    ensures Tokenize(["$ cd " + name]) == [["$", "cd", name]]
  {
    SplitCd(name);
  }

  lemma TokenizeUp()
    ensures Tokenize(["$ cd .."]) == [["$", "cd", ".."]]
  {
    SplitUp();
  }

  lemma SubdirNames(d: Dir)
    requires WellNamed(d)
    ensures forall k :: 0 <= k < |d.subdirs| ==> ' ' !in d.subdirs[k].name
  {
    forall k | 0 <= k < |d.subdirs|
      ensures ' ' !in d.subdirs[k].name
    {
      assert WellNamed(d.subdirs[k]);
    }
  }

  /** Splitting the lines of a transcript gives its words. */
  lemma {:induction false} TokenizeTranscript(d: Dir)
    requires WellNamed(d)
    ensures Tokenize(Transcript(d)) == TranscriptWords(d)
    decreases d, 1
  {
    TokenizeConcat3(["$ ls"], ListingLines(d), SubTranscripts(d, 0));
    TokenizeLs();
    SubdirNames(d);
    TokenizeInterleave(d.order, DirLines(d.subdirs), FileLines(d.files));
    TokenizeDirLines(d.subdirs);
    TokenizeFileLines(d.files);
    TokenizeSubTranscripts(d, 0);
  }

  lemma {:induction false} TokenizeSubTranscripts(d: Dir, i: nat)
    requires WellNamed(d) && i <= |d.subdirs|
    ensures Tokenize(SubTranscripts(d, i)) == SubTranscriptWords(d, i)
    decreases d, 0, |d.subdirs| - i
  {
    if i < |d.subdirs| {
      var sub := d.subdirs[i];
      var cd, body, up, rest := ["$ cd " + sub.name], Transcript(sub), ["$ cd .."], SubTranscripts(d, i + 1);
      assert SubTranscripts(d, i) == cd + body + up + rest;
      assert WellNamed(sub);
      TokenizeConcat4(cd, body, up, rest);
      TokenizeCd(sub.name);
      TokenizeUp();
      TokenizeTranscript(sub);
      TokenizeSubTranscripts(d, i + 1);
      assert SubTranscriptWords(d, i) == Tokenize(cd) + Tokenize(body) + Tokenize(up) + Tokenize(rest);
    }
  }

  // ----- Walking a transcript -----

  /** The lines from `pos` on begin with `words`. */
  predicate At(lines: seq<Words>, pos: nat, words: seq<Words>)
    decreases |words|
  {
    if words == [] then pos <= |lines|
    else pos < |lines| && lines[pos] == words[0] && At(lines, pos + 1, words[1..])
  }

  lemma {:induction false} AtBound(lines: seq<Words>, pos: nat, words: seq<Words>)
    requires At(lines, pos, words)
    ensures pos + |words| <= |lines|
    decreases |words|
  {
    if words != [] {
      AtBound(lines, pos + 1, words[1..]);
    }
  }

  lemma {:induction false} AtParts(lines: seq<Words>, pos: nat, a: seq<Words>, b: seq<Words>, mid: nat)
    requires At(lines, pos, a + b) && mid == pos + |a|
    ensures At(lines, pos, a) && At(lines, mid, b)
    decreases |a|
  {
    if a == [] {
      assert a + b == b;
      AtBound(lines, pos, b);
    } else {
      assert (a + b)[0] == a[0] && (a + b)[1..] == a[1..] + b;
      AtParts(lines, pos + 1, a[1..], b, mid);
    }
  }

  /** A three-part block of lines, each part in its place. */
  lemma AtParts3(lines: seq<Words>, pos: nat, a: seq<Words>, b: seq<Words>, c: seq<Words>, p1: nat, p2: nat)
    requires At(lines, pos, a + b + c)
    requires p1 == pos + |a| && p2 == p1 + |b|
    ensures At(lines, pos, a) && At(lines, p1, b) && At(lines, p2, c)
  {
    AtParts(lines, pos, a + b, c, p2);
    AtParts(lines, pos, a, b, p1);
  }

  /** A four-part block of lines, each part in its place. */
  lemma AtParts4(lines: seq<Words>, pos: nat, a: seq<Words>, b: seq<Words>, c: seq<Words>, e: seq<Words>, p1: nat, p2: nat, p3: nat)
    requires At(lines, pos, a + b + c + e)
    requires p1 == pos + |a| && p2 == p1 + |b| && p3 == p2 + |c|
    ensures At(lines, pos, a) && At(lines, p1, b) && At(lines, p2, c) && At(lines, p3, e)
  {
    AtParts(lines, pos, a + b + c, e, p3);
    AtParts(lines, pos, a + b, c, p2);
    AtParts(lines, pos, a, b, p1);
  }

  lemma {:induction false} AtSuffix(lines: seq<Words>, pos: nat)
    requires pos <= |lines|
    ensures At(lines, pos, lines[pos..])
    decreases |lines| - pos
  {
    if pos < |lines| {
      assert lines[pos..][1..] == lines[pos + 1..];
      AtSuffix(lines, pos + 1);
    }
  }

  lemma AtFirst(lines: seq<Words>, pos: nat, words: seq<Words>)
    requires At(lines, pos, words) && |words| >= 1
    ensures pos < |lines| && lines[pos] == words[0]
  {
  }

  /** A listed entry adds its size and moves to the next line. */
  lemma ListingEntry(lines: seq<Words>, pos: nat, size: nat, n: nat)
    requires pos < |lines| && Classify(lines[pos]) == Entry(n)
    ensures Listing(lines, pos, size) == Listing(lines, pos + 1, size + n)
  {
  }

  /** The first line and the rest of a block of lines. */
  lemma AtHead(lines: seq<Words>, pos: nat, words: seq<Words>)
    requires At(lines, pos, words) && words != []
    ensures pos < |lines| && lines[pos] == words[0] && At(lines, pos + 1, words[1..])
  {
  }

  lemma AtCons(lines: seq<Words>, pos: nat, head: Words, rest: seq<Words>)
    requires At(lines, pos, [head] + rest)
    ensures pos < |lines| && lines[pos] == head && At(lines, pos + 1, rest)
  {
    assert ([head] + rest)[1..] == rest;
  }

  /** `dir` entries add nothing to a listing. */
  lemma {:induction false} ListingDirs(lines: seq<Words>, pos: nat, ds: seq<Dir>, size: nat, end: nat)
    requires At(lines, pos, DirEntries(ds)) && end == pos + |ds|
    ensures end <= |lines|
    ensures Listing(lines, pos, size) == Listing(lines, end, size)
    decreases |ds|
  {
    AtBound(lines, pos, DirEntries(ds));
    if ds != [] {
      AtHead(lines, pos, DirEntries(ds));
      assert DirEntries(ds)[0] == ["dir", ds[0].name] && DirEntries(ds)[1..] == DirEntries(ds[1..]);
      ListingEntry(lines, pos, size, 0);
      ListingDirs(lines, pos + 1, ds[1..], size, end);
    }
  }

  lemma ClassifyFile(f: File)
    ensures Classify([NatToString(f.size), f.name]) == Entry(f.size)
  {
    ParseNatToString(f.size);
    var digits := NatToString(f.size);
    assert digits != "dir" by {
      assert IsDigit(digits[0]);
    }
  }

  /** File entries add their sizes to a listing. */
  lemma {:induction false} ListingFiles(lines: seq<Words>, pos: nat, fs: seq<File>, size: nat, end: nat, total: nat)
    requires At(lines, pos, FileEntries(fs)) && end == pos + |fs| && total == size + FileTotal(fs)
    ensures end <= |lines|
    ensures Listing(lines, pos, size) == Listing(lines, end, total)
    decreases |fs|
  {
    AtBound(lines, pos, FileEntries(fs));
    if fs != [] {
      AtHead(lines, pos, FileEntries(fs));
      assert FileEntries(fs)[0] == [NatToString(fs[0].size), fs[0].name] && FileEntries(fs)[1..] == FileEntries(fs[1..]);
      ClassifyFile(fs[0]);
      ListingEntry(lines, pos, size, fs[0].size);
      ListingFiles(lines, pos + 1, fs[1..], size + fs[0].size, end, total);
    }
  }

  /** The `dir` and file entries of a listing, mixed in any order, add up
      the files' sizes. */
  lemma {:induction false} ListingMixed(lines: seq<Words>, pos: nat, order: seq<bool>, ds: seq<Dir>, fs: seq<File>,
                                        size: nat, end: nat, total: nat)
    requires At(lines, pos, Interleave(order, DirEntries(ds), FileEntries(fs)))
    requires end == pos + |ds| + |fs| && total == size + FileTotal(fs)
    ensures end <= |lines|
    ensures Listing(lines, pos, size) == Listing(lines, end, total)
    decreases |order|
  {
    var xs, ys := DirEntries(ds), FileEntries(fs);
    if order == [] {
      AtParts(lines, pos, xs, ys, pos + |ds|);
      ListingDirs(lines, pos, ds, size, pos + |ds|);
      ListingFiles(lines, pos + |ds|, fs, size, end, total);
    } else if order[0] && ds != [] {
      ListingDirFirst(lines, pos, order, ds, fs, size);
      ListingMixed(lines, pos + 1, order[1..], ds[1..], fs, size, end, total);
    } else if !order[0] && fs != [] {
      ListingFileFirst(lines, pos, order, ds, fs, size);
      ListingMixed(lines, pos + 1, order[1..], ds, fs[1..], size + fs[0].size, end, total);
    } else {
      assert Interleave(order, xs, ys) == Interleave(order[1..], xs, ys);
      ListingMixed(lines, pos, order[1..], ds, fs, size, end, total);
    }
  }

  /** A listing whose next entry is a `dir` line. */
  lemma ListingDirFirst(lines: seq<Words>, pos: nat, order: seq<bool>, ds: seq<Dir>, fs: seq<File>, size: nat)
    requires order != [] && order[0] && ds != []
    requires At(lines, pos, Interleave(order, DirEntries(ds), FileEntries(fs)))
    ensures At(lines, pos + 1, Interleave(order[1..], DirEntries(ds[1..]), FileEntries(fs)))
    ensures Listing(lines, pos, size) == Listing(lines, pos + 1, size)
  {
    var xs, ys := DirEntries(ds), FileEntries(fs);
    var rest := Interleave(order[1..], xs[1..], ys);
    assert xs[0] == ["dir", ds[0].name] && xs[1..] == DirEntries(ds[1..]);
    assert Interleave(order, xs, ys) == [xs[0]] + rest;
    AtCons(lines, pos, xs[0], rest);
    ListingEntry(lines, pos, size, 0);
  }

  /** A listing whose next entry is a file line. */
  lemma ListingFileFirst(lines: seq<Words>, pos: nat, order: seq<bool>, ds: seq<Dir>, fs: seq<File>, size: nat)
    requires order != [] && !order[0] && fs != []
    requires At(lines, pos, Interleave(order, DirEntries(ds), FileEntries(fs)))
    ensures At(lines, pos + 1, Interleave(order[1..], DirEntries(ds), FileEntries(fs[1..])))
    ensures Listing(lines, pos, size) == Listing(lines, pos + 1, size + fs[0].size)
  {
    var xs, ys := DirEntries(ds), FileEntries(fs);
    var rest := Interleave(order[1..], xs, ys[1..]);
    assert ys[0] == [NatToString(fs[0].size), fs[0].name] && ys[1..] == FileEntries(fs[1..]);
    assert Interleave(order, xs, ys) == [ys[0]] + rest;
    AtCons(lines, pos, ys[0], rest);
    ClassifyFile(fs[0]);
    ListingEntry(lines, pos, size, fs[0].size);
  }

  /** Where a directory's exploration may end: at the end of the transcript,
      or at the `$ cd ..` that leaves it. */
  predicate Closed(lines: seq<Words>, q: nat) {
    q <= |lines| && (q == |lines| || lines[q] == ["$", "cd", ".."])
  }

  /** The line after a directory's exploration and its closing `$ cd ..`. */
  function After(lines: seq<Words>, q: nat): nat
    requires Closed(lines, q)
  {
    if q == |lines| then q else q + 1
  }

  /** A line at which a listing stops: the end of the transcript or a
      three-word command. */
  predicate Stops(lines: seq<Words>, q: nat) {
    q <= |lines| && (q == |lines| || (|lines[q]| == 3 && lines[q][0] == "$"))
  }

  lemma ListingEnd(lines: seq<Words>, q: nat, size: nat)
    requires Stops(lines, q)
    ensures Listing(lines, q, size) == Ok((size, q))
  {
  }

  /** The subdirectories' transcripts start with a `$ cd` into the first
      one, or the directory is closed at once. */
  lemma SubsStop(d: Dir, lines: seq<Words>, q: nat)
    requires At(lines, q, SubTranscriptWords(d, 0))
    requires Closed(lines, q + |SubTranscriptWords(d, 0)|)
    ensures Stops(lines, q)
  {
    var subs := SubTranscriptWords(d, 0);
    if subs != [] {
      assert subs[0] == ["$", "cd", d.subdirs[0].name];
      AtFirst(lines, q, subs);
    }
  }

  /** `$ ls` reads the listing and carries on after it. */
  lemma RunList(lines: seq<Words>, pos: nat, size: nat, recorded: seq<nat>, total: nat, next: nat)
    requires pos < |lines| && lines[pos] == ["$", "ls"]
    requires Listing(lines, pos + 1, size) == Ok((total, next))
    ensures next <= |lines|
    ensures Run(lines, pos, size, recorded) == Run(lines, next, total, recorded)
  {
  }

  /** `$ cd <dir>` visits the subdirectory and carries on after it. */
  lemma RunDown(lines: seq<Words>, pos: nat, size: nat, recorded: seq<nat>, sub: Frame)
    requires pos < |lines| && |lines[pos]| == 3 && lines[pos][0] == "$" && lines[pos][1] == "cd" && lines[pos][2] != ".."
    requires Run(lines, pos + 1, 0, []) == Ok(sub)
    ensures sub.next <= |lines|
    ensures Run(lines, pos, size, recorded) == Run(lines, sub.next, size + sub.size, recorded + sub.recorded)
  {
    assert CommandOf(lines[pos]) == Down;
  }

  /** Leaving a directory records its size. */
  lemma RunClosed(lines: seq<Words>, q: nat, size: nat, recorded: seq<nat>)
    requires Closed(lines, q)
    ensures Run(lines, q, size, recorded) == Ok(Frame(size, After(lines, q), recorded + [size]))
  {
  }

  /** A directory's transcript has three parts: `$ ls`, the listing, and
      the subdirectories' transcripts. */
  lemma TranscriptLength(d: Dir)
    ensures |TranscriptWords(d)| == 1 + |d.subdirs| + |d.files| + |SubTranscriptWords(d, 0)|
  {
  }

  lemma TranscriptOpens(d: Dir, lines: seq<Words>, pos: nat)
    requires At(lines, pos, TranscriptWords(d))
    ensures pos < |lines| && lines[pos] == ["$", "ls"]
  {
    AtFirst(lines, pos, TranscriptWords(d));
  }

  lemma TranscriptListing(d: Dir, lines: seq<Words>, pos: nat)
    requires At(lines, pos, TranscriptWords(d))
    ensures At(lines, pos + 1, ListingWords(d))
  {
    AtParts3(lines, pos, [["$", "ls"]], ListingWords(d), SubTranscriptWords(d, 0),
             pos + 1, pos + 1 + |d.subdirs| + |d.files|);
  }

  lemma TranscriptSubs(d: Dir, lines: seq<Words>, pos: nat)
    requires At(lines, pos, TranscriptWords(d))
    ensures At(lines, pos + 1 + |d.subdirs| + |d.files|, SubTranscriptWords(d, 0))
  {
    AtParts3(lines, pos, [["$", "ls"]], ListingWords(d), SubTranscriptWords(d, 0),
             pos + 1, pos + 1 + |d.subdirs| + |d.files|);
  }

  /** The listing in a transcript ends where the subdirectories' part begins. */
  lemma TranscriptStops(d: Dir, lines: seq<Words>, pos: nat)
    requires At(lines, pos, TranscriptWords(d))
    requires Closed(lines, pos + |TranscriptWords(d)|)
    ensures Stops(lines, pos + 1 + |d.subdirs| + |d.files|)
  {
    TranscriptLength(d);
    TranscriptSubs(d, lines, pos);
    SubsStop(d, lines, pos + 1 + |d.subdirs| + |d.files|);
  }

  /** The listing of a directory in its transcript adds up its files. */
  lemma ListingOfTranscript(d: Dir, lines: seq<Words>, pos: nat)
    requires At(lines, pos, TranscriptWords(d))
    requires Closed(lines, pos + |TranscriptWords(d)|)
    ensures Listing(lines, pos + 1, 0) == Ok((FileTotal(d.files), pos + 1 + |d.subdirs| + |d.files|))
  {
    TranscriptListing(d, lines, pos);
    TranscriptStops(d, lines, pos);
    ListingOfEntries(d, lines, pos + 1);
  }

  /** The listing of a directory, its `dir` and file entries in the
      directory's order, adds up its files and stops at the next command. */
  lemma ListingOfEntries(d: Dir, lines: seq<Words>, p: nat)
    requires At(lines, p, ListingWords(d))
    requires Stops(lines, p + |d.subdirs| + |d.files|)
    ensures Listing(lines, p, 0) == Ok((FileTotal(d.files), p + |d.subdirs| + |d.files|))
  {
    var end, total := p + |d.subdirs| + |d.files|, FileTotal(d.files);
    ListingMixed(lines, p, d.order, d.subdirs, d.files, 0, end, total);
    ListingEnd(lines, end, total);
  }

  /** The `$ ls` that opens a directory's transcript adds up its files and
      leaves the walk at the first `$ cd` into a subdirectory. */
  lemma ListTranscript(d: Dir, lines: seq<Words>, pos: nat, total: nat, q: nat)
    requires At(lines, pos, TranscriptWords(d))
    requires Closed(lines, pos + |TranscriptWords(d)|)
    requires total == FileTotal(d.files) && q == pos + 1 + |d.subdirs| + |d.files|
    ensures q <= |lines|
    ensures Run(lines, pos, 0, []) == Run(lines, q, total, [])
  {
    TranscriptOpens(d, lines, pos);
    ListingOfTranscript(d, lines, pos);
    RunList(lines, pos, 0, [], total, q);
  }

  /** The loop of `visit_directory` on the transcript of a directory returns
      the directory's size and records the size of every directory in it
      once, children before parents. */
  lemma {:induction false} RunTranscript(d: Dir, lines: seq<Words>, pos: nat)
    requires WellNamed(d)
    requires At(lines, pos, TranscriptWords(d))
    requires Closed(lines, pos + |TranscriptWords(d)|)
    ensures Run(lines, pos, 0, []) == Ok(Frame(Size(d), After(lines, pos + |TranscriptWords(d)|), Recorded(d)))
    decreases d, 1, 0, 0
  {
    var q, e := pos + 1 + |d.subdirs| + |d.files|, pos + |TranscriptWords(d)|;
    TranscriptLength(d);
    ListTranscript(d, lines, pos, FileTotal(d.files), q);
    TranscriptSubs(d, lines, pos);
    assert [] + SubRecorded(d, 0) == SubRecorded(d, 0);
    RunSubTranscripts(d, 0, lines, q, FileTotal(d.files), [], e, Size(d), SubRecorded(d, 0));
    RunClosed(lines, e, Size(d), SubRecorded(d, 0));
  }

  /** `visit_directory` on the transcript of a directory. */
  lemma VisitTranscript(d: Dir, lines: seq<Words>, pos: nat)
    requires WellNamed(d)
    requires At(lines, pos, TranscriptWords(d))
    requires Closed(lines, pos + |TranscriptWords(d)|)
    ensures Visit(lines, pos) == Ok(Frame(Size(d), After(lines, pos + |TranscriptWords(d)|), Recorded(d)))
  {
    RunTranscript(d, lines, pos);
  }

  /** The exploration of subdirectory `i` has four parts: `$ cd <name>`, the
      subdirectory's transcript, `$ cd ..`, and the later subdirectories. */
  lemma SubTranscriptLength(d: Dir, i: nat)
    requires i < |d.subdirs|
    ensures |SubTranscriptWords(d, i)| == 2 + |TranscriptWords(d.subdirs[i])| + |SubTranscriptWords(d, i + 1)|
  {
  }

  lemma SubOpens(d: Dir, i: nat, lines: seq<Words>, pos: nat)
    requires i < |d.subdirs| && At(lines, pos, SubTranscriptWords(d, i))
    ensures pos < |lines| && lines[pos] == ["$", "cd", d.subdirs[i].name]
  {
    AtFirst(lines, pos, SubTranscriptWords(d, i));
  }

  lemma SubBody(d: Dir, i: nat, lines: seq<Words>, pos: nat)
    requires i < |d.subdirs| && At(lines, pos, SubTranscriptWords(d, i))
    ensures At(lines, pos + 1, TranscriptWords(d.subdirs[i]))
  {
    var t := TranscriptWords(d.subdirs[i]);
    AtParts4(lines, pos, [["$", "cd", d.subdirs[i].name]], t, [["$", "cd", ".."]], SubTranscriptWords(d, i + 1),
             pos + 1, pos + 1 + |t|, pos + 2 + |t|);
  }

  lemma SubCloses(d: Dir, i: nat, lines: seq<Words>, pos: nat)
    requires i < |d.subdirs| && At(lines, pos, SubTranscriptWords(d, i))
    ensures pos + 1 + |TranscriptWords(d.subdirs[i])| < |lines|
    ensures lines[pos + 1 + |TranscriptWords(d.subdirs[i])|] == ["$", "cd", ".."]
  {
    var t := TranscriptWords(d.subdirs[i]);
    AtParts4(lines, pos, [["$", "cd", d.subdirs[i].name]], t, [["$", "cd", ".."]], SubTranscriptWords(d, i + 1),
             pos + 1, pos + 1 + |t|, pos + 2 + |t|);
    AtFirst(lines, pos + 1 + |t|, [["$", "cd", ".."]]);
  }

  lemma SubRest(d: Dir, i: nat, lines: seq<Words>, pos: nat)
    requires i < |d.subdirs| && At(lines, pos, SubTranscriptWords(d, i))
    ensures At(lines, pos + 2 + |TranscriptWords(d.subdirs[i])|, SubTranscriptWords(d, i + 1))
  {
    var t := TranscriptWords(d.subdirs[i]);
    AtParts4(lines, pos, [["$", "cd", d.subdirs[i].name]], t, [["$", "cd", ".."]], SubTranscriptWords(d, i + 1),
             pos + 1, pos + 1 + |t|, pos + 2 + |t|);
  }

  /** The subdirectories' explorations, from the `i`-th on, add their sizes
      to `size` and append their directories to `recorded`, giving `total`
      and `all` at line `end`. */
  lemma {:induction false} RunSubTranscripts(d: Dir, i: nat, lines: seq<Words>, pos: nat, size: nat, recorded: seq<nat>,
                                             end: nat, total: nat, all: seq<nat>)
    requires WellNamed(d) && i <= |d.subdirs|
    requires At(lines, pos, SubTranscriptWords(d, i))
    requires end == pos + |SubTranscriptWords(d, i)| && Closed(lines, end)
    requires total == size + SubSizes(d, i) && all == recorded + SubRecorded(d, i)
    ensures Run(lines, pos, size, recorded) == Run(lines, end, total, all)
    decreases d, 0, |d.subdirs| - i, 1
  {
    if i == |d.subdirs| {
      assert SubTranscriptWords(d, i) == [] && SubSizes(d, i) == 0 && SubRecorded(d, i) == [];
      assert recorded + [] == recorded;
      assert end == pos && total == size && all == recorded;
    } else {
      var sub := d.subdirs[i];
      var next, size', recorded' := pos + 2 + |TranscriptWords(sub)|, size + Size(sub), recorded + Recorded(sub);
      EnterSub(d, i, lines, pos, size, recorded);
      SubTranscriptLength(d, i);
      SubRest(d, i, lines, pos);
      assert total == size' + SubSizes(d, i + 1);
      assert all == recorded' + SubRecorded(d, i + 1);
      RunSubTranscripts(d, i + 1, lines, next, size', recorded', end, total, all);
    }
  }

  /** `$ cd <name>` visits subdirectory `i` and carries on after its `$ cd ..`. */
  lemma {:induction false} EnterSub(d: Dir, i: nat, lines: seq<Words>, pos: nat, size: nat, recorded: seq<nat>)
    requires WellNamed(d) && i < |d.subdirs|
    requires At(lines, pos, SubTranscriptWords(d, i))
    ensures pos + 2 + |TranscriptWords(d.subdirs[i])| <= |lines|
    ensures Run(lines, pos, size, recorded)
         == Run(lines, pos + 2 + |TranscriptWords(d.subdirs[i])|, size + Size(d.subdirs[i]), recorded + Recorded(d.subdirs[i]))
    decreases d, 0, |d.subdirs| - i, 0
  {
    var sub := d.subdirs[i];
    assert WellNamed(sub);
    SubOpens(d, i, lines, pos);
    SubBody(d, i, lines, pos);
    SubCloses(d, i, lines, pos);
    RunTranscript(sub, lines, pos + 1);
    RunDown(lines, pos, size, recorded, Frame(Size(sub), pos + 2 + |TranscriptWords(sub)|, Recorded(sub)));
  }

  /** Every directory of the tree is recorded exactly once. */
  lemma {:induction false} RecordedCount(d: Dir)
    ensures |Recorded(d)| == Count(d)
    decreases d, 1
  {
    SubRecordedCount(d, 0);
  }

  lemma {:induction false} SubRecordedCount(d: Dir, i: nat)
    requires i <= |d.subdirs|
    ensures |SubRecorded(d, i)| == SubCount(d, i)
    decreases d, 0, |d.subdirs| - i
  {
    if i < |d.subdirs| {
      RecordedCount(d.subdirs[i]);
      SubRecordedCount(d, i + 1);
    }
  }

  /** The whole transcript as the program reads it: `$ cd /` and the
      exploration of the root directory. */
  function Session(root: Dir): string {
    Join(["$ cd /"] + Transcript(root), '\n')
  }

  /** The walk of a session: the root's frame records every directory,
      then the outermost frame records the root's size again. */
  lemma WalkSession(root: Dir)
    requires WellNamed(root)
    ensures Walk(Session(root)) == Ok(Frame(Size(root), 1 + |TranscriptWords(root)|, Recorded(root) + [Size(root)]))
  {
    SessionWords(root);
    VisitSession(root, Tokenize(Lines(Session(root))));
  }

  lemma VisitSession(root: Dir, lines: seq<Words>)
    requires WellNamed(root)
    requires lines == [["$", "cd", "/"]] + TranscriptWords(root)
    ensures Visit(lines, 0) == Ok(Frame(Size(root), 1 + |TranscriptWords(root)|, Recorded(root) + [Size(root)]))
  {
    AtSuffix(lines, 0);
    assert lines[0..] == [["$", "cd", "/"]] + TranscriptWords(root);
    AtParts(lines, 0, [["$", "cd", "/"]], TranscriptWords(root), 1);
    assert |lines| == 1 + |TranscriptWords(root)|;
    VisitTranscript(root, lines, 1);
    assert Run(lines, 1, 0, []) == Ok(Frame(Size(root), |lines|, Recorded(root)));
    RunDown(lines, 0, 0, [], Frame(Size(root), |lines|, Recorded(root)));
    assert [] + Recorded(root) == Recorded(root);
    RunClosed(lines, |lines|, Size(root), Recorded(root));
  }

  /** `evaluate` on a session lists every directory's size, in ascending
      order; the root's size appears once more for the outermost frame. */
  lemma EvaluateSession(root: Dir)
    requires WellNamed(root)
    ensures Evaluate(Session(root)) == Ok(Sort(Recorded(root) + [Size(root)]))
  {
    WalkSession(root);
  }

  // ----- Sessions that end inside a directory -----

  /** Lines that all say `$ cd ..`. */
  predicate AllUps(lines: seq<Words>) {
    forall k :: 0 <= k < |lines| ==> lines[k] == ["$", "cd", ".."]
  }

  /** Frame `f` has the size and records of `g`, and ends where `g` ends
      unless `g` ends at `n`, in which case `f` ends at `n` or later. */
  predicate SameFrame(f: Frame, g: Frame, n: nat) {
    && f.size == g.size && f.recorded == g.recorded
    && (if g.next < n then f.next == g.next else n <= f.next)
  }

  /** At a `$ cd ..` or at the end, the loop leaves the directory at once. */
  lemma RunAtUps(lines: seq<Words>, ups: seq<Words>, q: nat, size: nat, recorded: seq<nat>)
    requires AllUps(ups) && |lines| <= q <= |lines + ups|
    ensures Run(lines + ups, q, size, recorded).Ok?
    ensures var f := Run(lines + ups, q, size, recorded).value;
      f.size == size && f.recorded == recorded + [size] && |lines| <= f.next
  {
    if q < |lines + ups| {
      assert (lines + ups)[q] == ups[q - |lines|];
    }
  }

  /** A listing stops at a `$ cd ..` just as it stops at the end. */
  lemma {:induction false} ListingDropUps(lines: seq<Words>, ups: seq<Words>, pos: nat, size: nat)
    requires AllUps(ups) && pos <= |lines|
    ensures Listing(lines + ups, pos, size) == Listing(lines, pos, size)
    decreases |lines| - pos
  {
    if pos < |lines| {
      assert (lines + ups)[pos] == lines[pos];
      if Classify(lines[pos]).Entry? {
        ListingDropUps(lines, ups, pos + 1, size + Classify(lines[pos]).size);
      }
    } else if ups != [] {
      assert (lines + ups)[pos] == ups[0];
    }
  }

  /** Closing lines at the end of a transcript change neither the sizes
      found nor the sizes recorded: the end of the transcript leaves every
      open directory just as `$ cd ..` does. */
  lemma {:induction false} RunDropUps(lines: seq<Words>, ups: seq<Words>, pos: nat, size: nat, recorded: seq<nat>)
    requires AllUps(ups) && pos <= |lines|
    ensures Run(lines + ups, pos, size, recorded).Ok? <==> Run(lines, pos, size, recorded).Ok?
    ensures Run(lines, pos, size, recorded).Ok? ==>
      SameFrame(Run(lines + ups, pos, size, recorded).value, Run(lines, pos, size, recorded).value, |lines|)
    decreases |lines| - pos
  {
    var all := lines + ups;
    if pos == |lines| {
      RunAtUps(lines, ups, pos, size, recorded);
    } else {
      assert all[pos] == lines[pos];
      var command := CommandOf(lines[pos]);
      if command.Down? {
        assert lines[pos][2] != "..";
        RunDropUps(lines, ups, pos + 1, 0, []);
        if Run(lines, pos + 1, 0, []).Ok? {
          var sub, sub' := Run(lines, pos + 1, 0, []).value, Run(all, pos + 1, 0, []).value;
          var size', recorded' := size + sub.size, recorded + sub.recorded;
          RunDown(lines, pos, size, recorded, sub);
          RunDown(all, pos, size, recorded, sub');
          if sub.next < |lines| {
            RunDropUps(lines, ups, sub.next, size', recorded');
          } else {
            RunAtUps(lines, ups, sub'.next, size', recorded');
            RunClosed(lines, sub.next, size', recorded');
          }
        }
      } else if command.List? {
        ListingDropUps(lines, ups, pos + 1, size);
        if Listing(lines, pos + 1, size).Ok? {
          var listed := Listing(lines, pos + 1, size).value;
          RunList(lines, pos, size, recorded, listed.0, listed.1);
          RunList(all, pos, size, recorded, listed.0, listed.1);
          RunDropUps(lines, ups, listed.1, listed.0, recorded);
        }
      }
    }
  }

  /** A session cut anywhere inside its final run of `$ cd ..` lines, as
      the puzzle's own example is, evaluates as the whole session does. */
  lemma EvaluateCutSession(root: Dir, n: nat)
    requires WellNamed(root)
    requires 1 <= n <= 1 + |Transcript(root)|
    requires forall k :: n <= k < 1 + |Transcript(root)| ==> (["$ cd /"] + Transcript(root))[k] == "$ cd .."
    ensures Evaluate(Join((["$ cd /"] + Transcript(root))[..n], '\n')) == Ok(Sort(Recorded(root) + [Size(root)]))
  {
    var input := Join((["$ cd /"] + Transcript(root))[..n], '\n');
    var words := [["$", "cd", "/"]] + TranscriptWords(root);
    var ups := CutWords(root, n);
    VisitSession(root, words);
    WalkOfCut(input, ups, words);
  }

  /** The words of a cut session, and of the `$ cd ..` lines cut off. */
  lemma CutWords(root: Dir, n: nat) returns (ups: seq<Words>)
    requires WellNamed(root)
    requires 1 <= n <= 1 + |Transcript(root)|
    requires forall k :: n <= k < 1 + |Transcript(root)| ==> (["$ cd /"] + Transcript(root))[k] == "$ cd .."
    ensures AllUps(ups)
    ensures Tokenize(Lines(Join((["$ cd /"] + Transcript(root))[..n], '\n'))) + ups == [["$", "cd", "/"]] + TranscriptWords(root)
  {
    var lines := ["$ cd /"] + Transcript(root);
    var kept, cut := lines[..n], lines[n..];
    TranscriptLines(root);
    assert kept[|kept| - 1] != "";
    LinesOfJoin(kept);
    assert lines == kept + cut;
    TokenizeConcat(kept, cut);
    TokenizeSession(root, lines);
    ups := Tokenize(cut);
    TokenizeEach(cut);
    SplitUp();
  }

  /** The walk of a transcript whose closing lines were cut off finds what
      the walk of the whole transcript finds. */
  lemma WalkOfCut(input: string, ups: seq<Words>, words: seq<Words>)
    requires AllUps(ups) && Tokenize(Lines(input)) + ups == words
    requires Visit(words, 0).Ok?
    ensures Evaluate(input) == Ok(Sort(Visit(words, 0).value.recorded))
  {
    var kept := Tokenize(Lines(input));
    RunDropUps(kept, ups, 0, 0, []);
    assert Walk(input) == Run(kept, 0, 0, []);
  }

  /** The session, split into lines and words. */
  lemma SessionWords(root: Dir)
    requires WellNamed(root)
    ensures Tokenize(Lines(Session(root))) == [["$", "cd", "/"]] + TranscriptWords(root)
  {
    SessionLines(root);
    TokenizeSession(root, Lines(Session(root)));
  }

  lemma TokenizeSession(root: Dir, lines: seq<string>)
    requires WellNamed(root)
    requires lines == ["$ cd /"] + Transcript(root)
    ensures Tokenize(lines) == [["$", "cd", "/"]] + TranscriptWords(root)
  {
    TokenizeConcat(["$ cd /"], Transcript(root));
    assert "$ cd /" == "$ cd " + "/";
    TokenizeCd("/");
    TokenizeTranscript(root);
  }

  /** The session splits back into its lines. */
  lemma SessionLines(root: Dir)
    requires WellNamed(root)
    ensures Lines(Session(root)) == ["$ cd /"] + Transcript(root)
  {
    var lines := ["$ cd /"] + Transcript(root);
    TranscriptLines(root);
    assert lines[|lines| - 1] != "";
    LinesOfJoin(lines);
  }

  /** Every transcript line is a non-empty line. */
  /** Lines that are not empty and hold no line break. */
  predicate SingleLines(lines: seq<string>) {
    forall k :: 0 <= k < |lines| ==> lines[k] != "" && '\n' !in lines[k]
  }

  lemma SingleLinesConcat(a: seq<string>, b: seq<string>)
    requires SingleLines(a) && SingleLines(b)
    ensures SingleLines(a + b)
  {
    forall k | 0 <= k < |a + b|
      ensures (a + b)[k] != "" && '\n' !in (a + b)[k]
    {
      if k >= |a| {
        assert (a + b)[k] == b[k - |a|];
      }
    }
  }

  lemma DirLinesSingle(ds: seq<Dir>)
    requires forall k :: 0 <= k < |ds| ==> '\n' !in ds[k].name
    ensures SingleLines(DirLines(ds))
  {
    var lines := DirLines(ds);
    forall k | 0 <= k < |ds|
      ensures lines[k] != "" && '\n' !in lines[k]
    {
      DirLineSingle(ds[k]);
    }
  }

  lemma DirLineSingle(d: Dir)
    requires '\n' !in d.name
    ensures DirLine(d) != "" && '\n' !in DirLine(d)
  {
    var line := DirLine(d);
    forall j | 0 <= j < |line|
      ensures line[j] != '\n'
    {
      if j >= 4 {
        assert line[j] == d.name[j - 4];
      }
    }
  }

  lemma FileLinesSingle(fs: seq<File>)
    requires forall k :: 0 <= k < |fs| ==> '\n' !in fs[k].name
    ensures SingleLines(FileLines(fs))
  {
    var lines := FileLines(fs);
    forall k | 0 <= k < |fs|
      ensures lines[k] != "" && '\n' !in lines[k]
    {
      var digits := NatToString(fs[k].size);
      assert '\n' !in digits by {
        assert forall j :: 0 <= j < |digits| ==> IsDigit(digits[j]);
      }
    }
  }

  lemma InterleaveSingle(order: seq<bool>, xs: seq<string>, ys: seq<string>)
    requires SingleLines(xs) && SingleLines(ys)
    ensures SingleLines(Interleave(order, xs, ys))
  {
    var r := Interleave(order, xs, ys);
    InterleaveElements(order, xs, ys);
    forall k | 0 <= k < |r|
      ensures r[k] != "" && '\n' !in r[k]
    {
      assert r[k] in multiset(r);
    }
  }

  lemma ListingSingleLines(d: Dir)
    requires WellNamed(d)
    ensures SingleLines(ListingLines(d))
  {
    forall k | 0 <= k < |d.subdirs|
      ensures '\n' !in d.subdirs[k].name
    {
      assert WellNamed(d.subdirs[k]);
    }
    DirLinesSingle(d.subdirs);
    assert forall k :: 0 <= k < |d.files| ==> '\n' !in d.files[k].name;
    FileLinesSingle(d.files);
    InterleaveSingle(d.order, DirLines(d.subdirs), FileLines(d.files));
  }

  lemma {:induction false} TranscriptLines(d: Dir)
    requires WellNamed(d)
    ensures forall k :: 0 <= k < |Transcript(d)| ==> Transcript(d)[k] != "" && '\n' !in Transcript(d)[k]
    decreases d, 1
  {
    ListingSingleLines(d);
    SubTranscriptsLines(d, 0);
    SingleLinesConcat(["$ ls"], ListingLines(d));
    SingleLinesConcat(["$ ls"] + ListingLines(d), SubTranscripts(d, 0));
    assert SingleLines(Transcript(d));
  }

  lemma {:induction false} SubTranscriptsLines(d: Dir, i: nat)
    requires WellNamed(d) && i <= |d.subdirs|
    ensures forall k :: 0 <= k < |SubTranscripts(d, i)| ==> SubTranscripts(d, i)[k] != "" && '\n' !in SubTranscripts(d, i)[k]
    decreases d, 0, |d.subdirs| - i
  {
    if i < |d.subdirs| {
      assert WellNamed(d.subdirs[i]);
      TranscriptLines(d.subdirs[i]);
      SubTranscriptsLines(d, i + 1);
    }
  }

  // ----- Selecting sizes -----

  const SmallDirectoryThreshold: nat := 100000
  const TotalDiskSpace: nat := 70000000
  const RequiredFreeDiskSpace: nat := 30000000

  /** How many sizes at the front are below `limit`: `take_while` stops at
      the first size that is not. */
  function LeadingBelow(sizes: seq<nat>, limit: nat): (n: nat)
    ensures n <= |sizes|
    ensures forall k :: 0 <= k < n ==> sizes[k] < limit
    ensures n < |sizes| ==> sizes[n] >= limit
  {
    if sizes == [] || sizes[0] >= limit then 0 else 1 + LeadingBelow(sizes[1..], limit)
  }

  /** `into_iter().take_while(|size| *size < limit).sum()`: the total of the
      sizes before the first one that reaches `limit`. */
  function TakeWhileSum(sizes: seq<nat>, limit: nat): (r: nat)
    ensures r == Sum(sizes[..LeadingBelow(sizes, limit)])
  {
    if sizes == [] || sizes[0] >= limit then 0
    else
      var n := LeadingBelow(sizes, limit);
      assert sizes[..n][1..] == sizes[1..][..n - 1];
      sizes[0] + TakeWhileSum(sizes[1..], limit)
  }

  /** The sizes below `limit`, in order: the reference for part 1. */
  function Below(sizes: seq<nat>, limit: nat): (r: seq<nat>)
    ensures forall k :: 0 <= k < |r| ==> r[k] < limit
  {
    if sizes == [] then []
    else if sizes[0] < limit then [sizes[0]] + Below(sizes[1..], limit)
    else Below(sizes[1..], limit)
  }

  /** On a sorted list, stopping at the first large size loses nothing. */
  lemma {:induction false} TakeWhileSumSorted(sizes: seq<nat>, limit: nat)
    requires Sorted(sizes)
    ensures TakeWhileSum(sizes, limit) == Sum(Below(sizes, limit))
    decreases |sizes|
  {
    if sizes != [] {
      if sizes[0] >= limit {
        NoneBelow(sizes, limit);
      } else {
        SortedTail(sizes);
        TakeWhileSumSorted(sizes[1..], limit);
      }
    }
  }

  lemma {:induction false} NoneBelow(sizes: seq<nat>, limit: nat)
    requires forall k :: 0 <= k < |sizes| ==> sizes[k] >= limit
    ensures Below(sizes, limit) == []
    decreases |sizes|
  {
    if sizes != [] {
      NoneBelow(sizes[1..], limit);
    }
  }

  /** Which sizes are below the limit does not depend on their order. */
  lemma {:induction false} BelowMultiset(sizes: seq<nat>, limit: nat, x: nat)
    ensures multiset(Below(sizes, limit))[x] == if x < limit then multiset(sizes)[x] else 0
    decreases |sizes|
  {
    if sizes != [] {
      BelowMultiset(sizes[1..], limit, x);
      assert sizes == [sizes[0]] + sizes[1..];
    }
  }

  lemma BelowPermutation(a: seq<nat>, b: seq<nat>, limit: nat)
    requires multiset(a) == multiset(b)
    ensures Sum(Below(a, limit)) == Sum(Below(b, limit))
  {
    forall x
      ensures multiset(Below(a, limit))[x] == multiset(Below(b, limit))[x]
    {
      BelowMultiset(a, limit, x);
      BelowMultiset(b, limit, x);
    }
    assert multiset(Below(a, limit)) == multiset(Below(b, limit));
    SumPermutation(Below(a, limit), Below(b, limit));
  }

  /** `part_1`: the total of the directory sizes below the threshold. */
  function Part1(input: string): (r: Result<nat>)
    ensures r.Ok? <==> Evaluate(input).Ok?
  {
    var sizes :- Evaluate(input);
    Ok(TakeWhileSum(sizes, SmallDirectoryThreshold))
  }

  /** Part 1 is the total of every recorded size below the threshold, in
      whatever order the walk recorded them. */
  lemma Part1IsTotalBelow(input: string)
    requires Part1(input).Ok?
    ensures Part1(input).value == Sum(Below(Walk(input).value.recorded, SmallDirectoryThreshold))
  {
    var sizes := Evaluate(input).value;
    TakeWhileSumSorted(sizes, SmallDirectoryThreshold);
    BelowPermutation(sizes, Walk(input).value.recorded, SmallDirectoryThreshold);
  }

  /** `slice::binary_search` on a sorted slice: either an index holding `x`,
      or the insertion point that keeps the slice sorted. */
  method BinarySearch(s: seq<nat>, x: nat) returns (found: bool, idx: nat)
    requires Sorted(s)
    ensures idx <= |s|
    ensures found ==> idx < |s| && s[idx] == x
    ensures !found ==> (forall k :: 0 <= k < idx ==> s[k] < x) && (forall k :: idx <= k < |s| ==> s[k] > x)
  {
    var left, right := 0, |s|;
    while left < right
      invariant 0 <= left <= right <= |s|
      invariant forall k :: 0 <= k < left ==> s[k] < x
      invariant forall k :: right <= k < |s| ==> s[k] > x
      decreases right - left
    {
      var mid := left + (right - left) / 2;
      if s[mid] < x {
        left := mid + 1;
      } else if s[mid] > x {
        right := mid;
      } else {
        return true, mid;
      }
    }
    return false, left;
  }

  /** The space that must be freed when `used` bytes are in use. Both
      subtractions are on `usize`, so `used` must lie between 40000000 and
      70000000 for neither to underflow. */
  function Need(used: nat): nat
    requires TotalDiskSpace - RequiredFreeDiskSpace <= used <= TotalDiskSpace
  {
    RequiredFreeDiskSpace - (TotalDiskSpace - used)
  }

  /** `part_2` on the sorted sizes: the smallest size that frees enough space. */
  method Part2(sizes: seq<nat>) returns (chosen: nat)
    requires Sorted(sizes) && |sizes| >= 1
    requires TotalDiskSpace - RequiredFreeDiskSpace <= sizes[|sizes| - 1] <= TotalDiskSpace
    ensures chosen in sizes && chosen >= Need(sizes[|sizes| - 1])
    ensures forall k :: 0 <= k < |sizes| && sizes[k] >= Need(sizes[|sizes| - 1]) ==> chosen <= sizes[k]
  {
    var used := sizes[|sizes| - 1];
    var need := Need(used);
    assert used >= need;
    var found, idx := BinarySearch(sizes, need);
    chosen := sizes[idx];
  }

  /** The worked example's sizes: `e`, `a`, `d`, and `/` twice. */
  method Part2Example() returns (chosen: nat)
    ensures chosen == 24933642
  {
    var sizes := [584, 94853, 24933642, 48381165, 48381165];
    chosen := Part2(sizes);
    assert sizes[2] >= Need(48381165);
  }

  lemma Part1Example()
    ensures TakeWhileSum([584, 94853, 24933642, 48381165, 48381165], SmallDirectoryThreshold) == 95437
  {
    var s := [584, 94853, 24933642, 48381165, 48381165];
    assert s[1..][1..] == [24933642, 48381165, 48381165];
  }
}
