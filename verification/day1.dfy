/** Day 1: each elf's food items are a group of newline-separated calorie
    counts, groups are separated by a blank line; the answer is the combined
    calories of the three elves carrying the most. */
module Day1 {
  import opened Results
  import opened Text
  import opened Seqs

  /** `items.map(str::parse::<u32>).map(Result::unwrap)`: every item parsed as a
      number, the first unparsable one aborting the program. */
  function ParseAll(items: seq<string>): (r: Result<seq<nat>>)
    ensures r.Ok? <==> forall k :: 0 <= k < |items| ==> IsNumeral(items[k])
    ensures r.Ok? ==> |r.value| == |items|
    ensures r.Ok? ==> forall k :: 0 <= k < |items| ==> ParseNat(items[k]) == Ok(r.value[k])
    decreases |items|
  {
    if items == [] then Ok([])
    else
      var x :- ParseNat(items[0]);
      var rest :- ParseAll(items[1..]);
      Ok([x] + rest)
  }

  /** The separator between two elves' groups. */
  const BlankLine := "\n\n"

  /** The calorie total of every group, in input order. */
  function GroupTotals(groups: seq<string>): (r: Result<seq<nat>>)
    ensures r.Ok? <==> forall k :: 0 <= k < |groups| ==> ParseAll(Split(groups[k], '\n')).Ok?
    ensures r.Ok? ==> |r.value| == |groups|
    ensures r.Ok? ==> forall k :: 0 <= k < |groups| ==> r.value[k] == Sum(ParseAll(Split(groups[k], '\n')).value)
    decreases |groups|
  {
    if groups == [] then Ok([])
    else
      var numbers :- ParseAll(Split(groups[0], '\n'));
      var rest :- GroupTotals(groups[1..]);
      Ok([Sum(numbers)] + rest)
  }

  /** `elves.sort(); elves.reverse();` */
  function Ranked(totals: seq<nat>): seq<nat> {
    Reverse(Sort(totals))
  }

  /** `elves.iter().take(3).sum()` on the ranked list: at least the largest
      single total, at most the sum of all of them, and every total when
      there are three or fewer. */
  function TopThree(totals: seq<nat>): (r: nat)
    ensures forall k :: 0 <= k < |totals| ==> totals[k] <= r
    ensures r <= Sum(totals)
    ensures |totals| <= 3 ==> r == Sum(totals)
  {
    var ranked := Ranked(totals);
    var top := ranked[..Min(3, |ranked|)];
    TopBounds(totals, ranked, top);
    Sum(top)
  }

  /** The whole program, without reading the file and printing. */
  function Solve(input: string): (r: Result<nat>)
    ensures var totals := GroupTotals(SplitOn(input, BlankLine));
      r.Ok? <==> totals.Ok?
    ensures var totals := GroupTotals(SplitOn(input, BlankLine));
      r.Ok? ==> r.value == TopThree(totals.value)
  {
    var totals :- GroupTotals(SplitOn(input, BlankLine));
    Ok(TopThree(totals))
  }

  /** After sorting and reversing, the totals are in descending order and are
      a permutation of the group totals. */
  lemma RankedIsDescendingPermutation(totals: seq<nat>)
    ensures Descending(Ranked(totals))
    ensures multiset(Ranked(totals)) == multiset(totals)
  {
    ReverseSorted(Sort(totals));
    ReversePermutation(Sort(totals));
  }

  /** The three summed totals are each at least as large as every total left out. */
  lemma TopThreeAreLargest(totals: seq<nat>, i: nat, j: nat)
    requires i < 3 && 3 <= j < |totals|
    ensures Ranked(totals)[i] >= Ranked(totals)[j]
  {
    RankedIsDescendingPermutation(totals);
  }

  /** The first three ranked totals sum to at least every total and to at
      most all of them, and to all of them when there are three or fewer. */
  lemma TopBounds(totals: seq<nat>, ranked: seq<nat>, top: seq<nat>)
    requires ranked == Ranked(totals) && top == ranked[..Min(3, |ranked|)]
    ensures forall k :: 0 <= k < |totals| ==> totals[k] <= Sum(top)
    ensures Sum(top) <= Sum(totals)
    ensures |totals| <= 3 ==> Sum(top) == Sum(totals)
  {
    RankedIsDescendingPermutation(totals);
    SumPermutation(ranked, totals);
    PrefixSumAtMostSum(ranked, Min(3, |ranked|));
    forall k | 0 <= k < |totals|
      ensures totals[k] <= Sum(top)
    {
      assert totals[k] in multiset(ranked);
      var i :| 0 <= i < |ranked| && ranked[i] == totals[k];
      assert ranked[0] >= ranked[i];
      TermAtMostSum(top, 0);
    }
    if |totals| <= 3 {
      TakeAll(ranked, Min(3, |ranked|));
    }
  }

  lemma TakeAll(s: seq<nat>, n: nat)
    requires n == |s|
    ensures s[..n] == s
  {
  }
}
