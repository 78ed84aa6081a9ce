/** Day 3: each rucksack is one line of item letters whose two halves are its
    two compartments; the item found in both compartments is scored by its
    priority and the priorities are summed. */
module Day3 {
  import opened Results
  import opened Text
  import opened Seqs

  /** `items.split_at(items.len() / 2)`: the two compartments. */
  function Compartments(items: string): (halves: (string, string))
    ensures |halves.0| == |items| / 2
    ensures |halves.1| - |halves.0| <= 1
    ensures halves.0 + halves.1 == items
  {
    (items[..|items| / 2], items[|items| / 2..])
  }

  /** `first.intersection(&second).next()`: some item present in both
      compartments, or `None` when they share nothing. A hash set yields its
      elements in an unspecified order; this model picks the earliest item of
      the first compartment, and its contract promises only "some shared item". */
  function SharedItem(first: string, second: string): (r: Option<char>)
    ensures r.Some? ==> r.value in first && r.value in second
    ensures r.None? <==> forall c :: c in first ==> c !in second
  {
    if first == [] then None
    else if first[0] in second then Some(first[0])
    else SharedItem(first[1..], second)
  }

  /** When the compartments share exactly one item, that is the item found. */
  lemma SharedItemUnique(first: string, second: string, x: char)
    requires x in first && x in second
    requires forall c :: c in first && c in second ==> c == x
    ensures SharedItem(first, second) == Some(x)
  {
  }

  predicate IsLetter(c: char) {
    'a' <= c <= 'z' || 'A' <= c <= 'Z'
  }

  /** The priority of an item: `a`..`z` are 1..26 and `A`..`Z` are 27..52;
      anything else reaches `unreachable!()` and aborts. */
  function Priority(c: char): (r: Result<nat>)
    ensures r.Ok? <==> IsLetter(c)
    ensures r.Ok? ==> 1 <= r.value <= 52
    ensures r.Ok? ==> ('a' <= c <= 'z' <==> r.value <= 26)
  {
    if 'a' <= c <= 'z' then Ok(1 + (c as int - 'a' as int))
    else if 'A' <= c <= 'Z' then Ok(27 + (c as int - 'A' as int))
    else Err("internal error: entered unreachable code")
  }

  /** The item that has a given priority: the inverse of `Priority`. */
  function ItemWithPriority(p: nat): (c: char)
    requires 1 <= p <= 52
    ensures IsLetter(c)
  {
    if p <= 26 then ('a' as int + p - 1) as char else ('A' as int + p - 27) as char
  }

  /** `Priority` and `ItemWithPriority` are inverse bijections between letters and 1..52. */
  lemma PriorityRoundTrip(c: char, p: nat)
    ensures IsLetter(c) ==> ItemWithPriority(Priority(c).value) == c
    ensures 1 <= p <= 52 ==> Priority(ItemWithPriority(p)) == Ok(p)
  {
  }

  /** Distinct letters have distinct priorities. */
  lemma PriorityInjective(c: char, d: char)
    requires IsLetter(c) && IsLetter(d) && c != d
    ensures Priority(c) != Priority(d)
  {
    PriorityRoundTrip(c, 0);
    PriorityRoundTrip(d, 0);
  }

  /** The priority of one rucksack's shared item; a rucksack whose
      compartments share nothing aborts on `unwrap`. */
  function RucksackPriority(items: string): (r: Result<nat>)
    ensures var (first, second) := Compartments(items);
      r.Ok? <==> exists c :: c in first && c in second && IsLetter(c) && SharedItem(first, second) == Some(c)
    ensures r.Ok? ==> exists c :: c in items[..|items| / 2] && c in items[|items| / 2..] && Priority(c) == r
  {
    var (first, second) := Compartments(items);
    match SharedItem(first, second)
    case None => Err("called `Option::unwrap()` on a `None` value")
    case Some(c) => Priority(c)
  }

  /** The sum of the priorities of all rucksacks, in order: it exists exactly
      when every rucksack has a priority, and it is the sum of the priorities
      collected one per rucksack. */
  function TotalPriority(rucksacks: seq<string>): (r: Result<nat>)
    ensures r.Ok? <==> forall k :: 0 <= k < |rucksacks| ==> RucksackPriority(rucksacks[k]).Ok?
    ensures r.Ok? ==> r.value == Sum(Collect(RucksackPriority, rucksacks).value)
    ensures r.Ok? ==> |rucksacks| <= r.value <= 52 * |rucksacks|
    decreases |rucksacks|
  {
    if rucksacks == [] then Ok(0)
    else
      assert forall k :: 1 <= k < |rucksacks| ==> rucksacks[k] == rucksacks[1..][k - 1];
      var p :- RucksackPriority(rucksacks[0]);
      var rest :- TotalPriority(rucksacks[1..]);
      CollectFirst(rucksacks);
      Ok(p + rest)
  }

  /** The priorities of all rucksacks are the first one's, then the rest's. */
  lemma CollectFirst(rucksacks: seq<string>)
    requires |rucksacks| > 0
    requires forall k :: 0 <= k < |rucksacks| ==> RucksackPriority(rucksacks[k]).Ok?
    ensures Collect(RucksackPriority, rucksacks).Ok? && Collect(RucksackPriority, rucksacks[1..]).Ok?
    ensures Sum(Collect(RucksackPriority, rucksacks).value)
      == RucksackPriority(rucksacks[0]).value + Sum(Collect(RucksackPriority, rucksacks[1..]).value)
  {
    var all := Collect(RucksackPriority, rucksacks).value;
    var rest := Collect(RucksackPriority, rucksacks[1..]).value;
    assert all[1..] == rest by {
      forall k | 0 <= k < |rest|
        ensures all[1..][k] == rest[k]
      {
        assert rucksacks[1..][k] == rucksacks[k + 1];
      }
    }
  }

  /** The whole program, without reading the file and printing: one
      rucksack per whitespace-separated word; the answer exists exactly when
      every rucksack has a priority, and it is the sum of those priorities. */
  function Solve(input: string): (r: Result<nat>)
    ensures r.Ok? ==> forall k :: 0 <= k < |Words(input, AsciiWhitespace)| ==>
      RucksackPriority(Words(input, AsciiWhitespace)[k]).Ok?
    ensures (forall k :: 0 <= k < |Words(input, AsciiWhitespace)| ==>
      RucksackPriority(Words(input, AsciiWhitespace)[k]).Ok?) ==> r.Ok?
    ensures r.Ok? ==> r.value == Sum(Collect(RucksackPriority, Words(input, AsciiWhitespace)).value)
  {
    TotalPriority(Words(input, AsciiWhitespace))
  }

  /** The worked example: the halves of `vJrwpWtwJgWrhcsFMMfFFhFp` share only
      `p`, whose priority is 16. */
  lemma Example()
    ensures RucksackPriority("vJrwpWtwJgWrhcsFMMfFFhFp") == Ok(16)
  {
    var items := "vJrwpWtwJgWrhcsFMMfFFhFp";
    assert |items| / 2 == 12;
    assert items[..12] == "vJrwpWtwJgWr";
    assert items[12..] == "hcsFMMfFFhFp";
    assert Compartments(items) == ("vJrwpWtwJgWr", "hcsFMMfFFhFp");
    ExampleSharedItem();
    assert Priority('p') == Ok(16);
  }

  lemma ExampleSharedItem()
    ensures SharedItem("vJrwpWtwJgWr", "hcsFMMfFFhFp") == Some('p')
  {
    var first, second := "vJrwpWtwJgWr", "hcsFMMfFFhFp";
    assert second[11] == 'p';
    assert 'v' !in second && 'J' !in second && 'r' !in second && 'w' !in second;
    assert SharedItem(first, second) == SharedItem(first[4..], second);
    assert first[4..][0] == 'p';
  }
}
