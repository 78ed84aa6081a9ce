/** Day 4: each line holds two elves' section assignments `a-b,c-d`; the answer
    counts the pairs in which one assignment contains the other. */
module Day4 {
  import opened Results
  import opened Text

  /** `std::ops::Range<usize>`: the half-open interval `start..end`. */
  datatype Range = Range(start: nat, end: nat) {

    /** `ContainsRange::contains_range` */
    predicate Contains(other: Range) {
      start <= other.start && end >= other.end
    }

    predicate Has(x: int) {
      start <= x < end
    }

    predicate IsEmpty() {
      start >= end
    }
  }

  lemma ContainsReflexive(r: Range)
    ensures r.Contains(r)
  {
  }

  lemma ContainsTransitive(a: Range, b: Range, c: Range)
    requires a.Contains(b) && b.Contains(c)
    ensures a.Contains(c)
  {
  }

  /** For a non-empty range, containment is exactly inclusion of the sections it covers. */
  lemma ContainsIsInclusion(r: Range, s: Range)
    requires !s.IsEmpty()
    ensures r.Contains(s) <==> forall x :: s.Has(x) ==> r.Has(x)
  {
    if forall x :: s.Has(x) ==> r.Has(x) {
      assert s.Has(s.start) && s.Has(s.end - 1);
    }
  }

  /** `parse_range`: `a-b` becomes the half-open range `a..b+1`. A missing `-`
      or a bound that is not a number aborts the program. */
  function ParseRange(text: string): (r: Result<Range>)
    ensures r.Ok? <==> '-' in text && IsNumeral(SplitOnce(text, '-').value.0) && IsNumeral(SplitOnce(text, '-').value.1)
    ensures r.Ok? ==> r.value.end >= 1
    ensures r.Ok? ==> Ok(r.value.start) == ParseNat(SplitOnce(text, '-').value.0)
    ensures r.Ok? ==> Ok(r.value.end - 1) == ParseNat(SplitOnce(text, '-').value.1)
  {
    match SplitOnce(text, '-')
    case None => Err("called `Option::unwrap()` on a `None` value")
    case Some((low, high)) =>
      var start :- ParseNat(low);
      var last :- ParseNat(high);
      Ok(Range(start, last + 1))
  }

  /** The assignment text for the inclusive section numbers `first..=last`. */
  function RangeText(first: nat, last: nat): string {
    NatToString(first) + "-" + NatToString(last)
  }

  /** Parsing undoes rendering: the inclusive bounds `a-b` become `a..b+1`. */
  lemma ParseRangeText(first: nat, last: nat)
    ensures ParseRange(RangeText(first, last)) == Ok(Range(first, last + 1))
  {
    var low, high := NatToString(first), NatToString(last);
    assert '-' !in low by {
      assert forall k :: 0 <= k < |low| ==> IsDigit(low[k]);
    }
    assert RangeText(first, last) == low + ['-'] + high;
    SplitOnceAfterPrefix(low, '-', high);
    ParseNatToString(first);
    ParseNatToString(last);
  }

  /** One line: two assignments separated by a comma. */
  function ParsePair(line: string): (r: Result<(Range, Range)>)
    ensures r.Ok? <==> ',' in line && ParseRange(SplitOnce(line, ',').value.0).Ok? && ParseRange(SplitOnce(line, ',').value.1).Ok?
    ensures r.Ok? ==> Ok(r.value.0) == ParseRange(SplitOnce(line, ',').value.0)
    ensures r.Ok? ==> Ok(r.value.1) == ParseRange(SplitOnce(line, ',').value.1)
  {
    match SplitOnce(line, ',')
    case None => Err("called `Option::unwrap()` on a `None` value")
    case Some((first, second)) =>
      var a :- ParseRange(first);
      var b :- ParseRange(second);
      Ok((a, b))
  }

  /** The two `.map` steps over the lines. They run lazily under `count`, but
      the first line that fails aborts the program, so they behave as
      collecting into a `Result`. */
  function ParsePairs(lines: seq<string>): (r: Result<seq<(Range, Range)>>)
    ensures r.Ok? <==> forall k :: 0 <= k < |lines| ==> ParsePair(lines[k]).Ok?
    ensures r.Ok? ==> |r.value| == |lines| && forall k :: 0 <= k < |lines| ==> ParsePair(lines[k]) == Ok(r.value[k])
  {
    Collect(ParsePair, lines)
  }

  /** The filter of the program: one assignment contains the other. */
  predicate EitherContains(pair: (Range, Range)) {
    pair.0.Contains(pair.1) || pair.1.Contains(pair.0)
  }

  /** `.filter(...).count()` */
  function CountContaining(pairs: seq<(Range, Range)>): (n: nat)
    ensures n <= |pairs|
    ensures n == |pairs| <==> forall k :: 0 <= k < |pairs| ==> EitherContains(pairs[k])
    ensures n == 0 <==> forall k :: 0 <= k < |pairs| ==> !EitherContains(pairs[k])
  {
    if pairs == [] then 0
    else (if EitherContains(pairs[0]) then 1 else 0) + CountContaining(pairs[1..])
  }

  /** The positions of the pairs in which one assignment contains the other:
      the reference for the count. */
  ghost function Containing(pairs: seq<(Range, Range)>): set<nat> {
    set k: nat | k < |pairs| && EitherContains(pairs[k])
  }

  /** Counting a list in two parts adds the counts of the parts. */
  lemma {:induction false} CountConcat(a: seq<(Range, Range)>, b: seq<(Range, Range)>)
    ensures CountContaining(a + b) == CountContaining(a) + CountContaining(b)
    decreases |a|
  {
    if a == [] {
      assert a + b == b;
    } else {
      assert (a + b)[0] == a[0];
      assert (a + b)[1..] == a[1..] + b;
      CountConcat(a[1..], b);
    }
  }

  /** The count is the number of pairs in which one assignment contains the
      other. */
  lemma {:induction false} CountIsContaining(pairs: seq<(Range, Range)>)
    ensures CountContaining(pairs) == |Containing(pairs)|
    decreases |pairs|
  {
    if pairs != [] {
      var n := |pairs| - 1;
      var init := pairs[..n];
      assert pairs == init + [pairs[n]];
      CountIsContaining(init);
      CountConcat(init, [pairs[n]]);
      CountOne(pairs[n]);
      ContainingLast(pairs);
    }
  }

  lemma CountOne(pair: (Range, Range))
    ensures CountContaining([pair]) == if EitherContains(pair) then 1 else 0
  {
    assert [pair][1..] == [];
  }

  /** The last pair adds its own index to the indices before it, or nothing. */
  lemma ContainingLast(pairs: seq<(Range, Range)>)
    requires pairs != []
    ensures var n := |pairs| - 1;
      && n !in Containing(pairs[..n])
      && Containing(pairs) == Containing(pairs[..n]) + (if EitherContains(pairs[n]) then {n} else {})
  {
    var n := |pairs| - 1;
    var init := pairs[..n];
    forall k: nat | k < n
      ensures pairs[k] == init[k]
    {
    }
  }


  /** The order of the two elves within a pair does not change the count. */
  lemma {:induction false} CountIgnoresOrderWithinPairs(pairs: seq<(Range, Range)>, swapped: seq<(Range, Range)>)
    requires |swapped| == |pairs|
    requires forall k :: 0 <= k < |pairs| ==> swapped[k] == pairs[k] || swapped[k] == (pairs[k].1, pairs[k].0)
    ensures CountContaining(swapped) == CountContaining(pairs)
  {
    if pairs != [] {
      CountIgnoresOrderWithinPairs(pairs[1..], swapped[1..]);
    }
  }

  /** The whole program, without reading the file and printing. */
  function Solve(input: string): (r: Result<nat>)
    ensures r.Ok? <==> ParsePairs(Words(input, AsciiWhitespace)).Ok?
    ensures r.Ok? ==> r.value <= |Words(input, AsciiWhitespace)|
    ensures r.Ok? ==> r.value == |Containing(ParsePairs(Words(input, AsciiWhitespace)).value)|
  {
    var pairs :- ParsePairs(Words(input, AsciiWhitespace));
    CountIsContaining(pairs);
    Ok(CountContaining(pairs))
  }

  /** The worked examples: `2-4,6-8` are disjoint and `5-7,7-9` only overlap,
      so neither pair is counted, while `2-8,3-7` is. */
  lemma Examples()
    ensures !EitherContains((Range(2, 5), Range(6, 9)))
    ensures !EitherContains((Range(5, 8), Range(7, 10)))
    ensures EitherContains((Range(2, 9), Range(3, 8)))
  {
  }
}
