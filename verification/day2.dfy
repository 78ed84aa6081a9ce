/** Day 2: a strategy guide of rock-paper-scissors rounds. Each round names the
    opponent's move (`A`, `B`, `C`) and the outcome we must reach (`X` lose,
    `Y` draw, `Z` win); we play the move that reaches it and score the round. */
module Day2 {
  import opened Results
  import opened Text
  import opened Seqs

  datatype Selection = Rock | Paper | Scissors

  /** `Selection::score` */
  function SelectionScore(s: Selection): (n: nat)
    ensures 1 <= n <= 3
    ensures n == Index(s) + 1
  {
    match s
    case Rock => 1
    case Paper => 2
    case Scissors => 3
  }

  /** `Selection::from_str` */
  function ParseSelection(s: string): (r: Result<Selection>)
    ensures r.Ok? <==> s == "A" || s == "B" || s == "C"
  {
    if s == "A" then Ok(Rock)
    else if s == "B" then Ok(Paper)
    else if s == "C" then Ok(Scissors)
    else Err("Unknown selection")
  }

  /** The letter that stands for a move in the guide. */
  function SelectionCode(s: Selection): (code: string)
    ensures |code| == 1 && 'A' <= code[0] <= 'C'
  {
    match s
    case Rock => "A"
    case Paper => "B"
    case Scissors => "C"
  }

  /** The parser accepts exactly one letter per move and decodes it back. */
  lemma ParseSelectionCode(x: Selection, s: string)
    ensures ParseSelection(SelectionCode(x)) == Ok(x)
    ensures ParseSelection(s) == Ok(x) ==> s == SelectionCode(x)
  {
  }

  /** The outcome of a round, seen from our side. */
  datatype Winner = Us | Them | Draw

  /** `Winner::from_str`: the guide's second column names the outcome. */
  function ParseWinner(s: string): (r: Result<Winner>)
    ensures r.Ok? <==> s == "X" || s == "Y" || s == "Z"
  {
    if s == "X" then Ok(Them)
    else if s == "Y" then Ok(Draw)
    else if s == "Z" then Ok(Us)
    else Err("Unknown winner")
  }

  function WinnerCode(w: Winner): (code: string)
    ensures |code| == 1 && 'X' <= code[0] <= 'Z'
  {
    match w
    case Them => "X"
    case Draw => "Y"
    case Us => "Z"
  }

  lemma ParseWinnerCode(w: Winner, s: string)
    ensures ParseWinner(WinnerCode(w)) == Ok(w)
    ensures ParseWinner(s) == Ok(w) ==> s == WinnerCode(w)
  {
  }

  /** `Winner::score` */
  function WinnerScore(w: Winner): (n: nat)
    ensures n == 0 || n == 3 || n == 6
    ensures (n == 6 <==> w == Us) && (n == 3 <==> w == Draw)
  {
    match w
    case Us => 6
    case Draw => 3
    case Them => 0
  }

  /** `Winner::new(them, us)`: its table agrees with the cyclic rule. */
  function Outcome(them: Selection, us: Selection): (w: Winner)
    ensures w == Us <==> Beats(us, them)
    ensures w == Them <==> Beats(them, us)
    ensures w == Draw <==> us == them
  {
    match (us, them)
    case (Rock, Rock) => Draw
    case (Paper, Paper) => Draw
    case (Scissors, Scissors) => Draw
    case (Rock, Scissors) => Us
    case (Scissors, Paper) => Us
    case (Paper, Rock) => Us
    case _ => Them
  }

  /** `Winner::our_move`: the move to play against `them` to reach `w`. It
      produces the requested outcome, and it is the only move that does. */
  function OurMove(w: Winner, them: Selection): (us: Selection)
    ensures Outcome(them, us) == w
    ensures forall other :: Outcome(them, other) == w ==> other == us
  {
    match (w, them)
    case (Us, Scissors) => Rock
    case (Draw, Rock) => Rock
    case (Them, Paper) => Rock
    case (Us, Paper) => Scissors
    case (Draw, Scissors) => Scissors
    case (Them, Rock) => Scissors
    case _ => Paper
  }

  /** The moves in cyclic order: each beats the one before it. */
  function Index(s: Selection): int {
    match s
    case Rock => 0
    case Paper => 1
    case Scissors => 2
  }

  /** The game's rule stated independently of the tables: `a` beats `b` when it
      comes one step after `b` in the cycle Rock, Paper, Scissors. */
  predicate Beats(a: Selection, b: Selection) {
    (Index(a) - Index(b)) % 3 == 1
  }

  /** Swapping the players swaps the winner. */
  lemma OutcomeAntisymmetric(a: Selection, b: Selection)
    ensures Outcome(a, b) == Us <==> Outcome(b, a) == Them
    ensures Outcome(a, b) == Draw <==> Outcome(b, a) == Draw
  {
  }

  /** The score of one round of the guide: outcome points plus the points of the move we play. */
  function RoundScore(them: Selection, w: Winner): (n: nat)
    ensures 1 <= n <= 9
    ensures n == WinnerScore(Outcome(them, OurMove(w, them))) + SelectionScore(OurMove(w, them))
  {
    WinnerScore(w) + SelectionScore(OurMove(w, them))
  }

  /** itertools' `tuples()` on pairs: consecutive tokens two at a time, an odd last token dropped. */
  function Pairs(tokens: seq<string>): (r: seq<(string, string)>)
    ensures |r| == |tokens| / 2
    ensures forall i :: 0 <= i < |r| ==> r[i] == (tokens[2 * i], tokens[2 * i + 1])
  {
    if |tokens| < 2 then [] else [(tokens[0], tokens[1])] + Pairs(tokens[2..])
  }

  /** Both columns of every round parsed; the first bad token aborts the program. */
  function ParseRounds(pairs: seq<(string, string)>): (r: Result<seq<(Selection, Winner)>>)
    ensures r.Ok? <==> forall i :: 0 <= i < |pairs| ==> ParseSelection(pairs[i].0).Ok? && ParseWinner(pairs[i].1).Ok?
    ensures r.Ok? ==> |r.value| == |pairs| && forall i :: 0 <= i < |pairs| ==>
      Ok(r.value[i].0) == ParseSelection(pairs[i].0) && Ok(r.value[i].1) == ParseWinner(pairs[i].1)
  {
    if pairs == [] then Ok([])
    else
      var them :- ParseSelection(pairs[0].0);
      var w :- ParseWinner(pairs[0].1);
      var rest :- ParseRounds(pairs[1..]);
      Ok([(them, w)] + rest)
  }

  function Scores(rounds: seq<(Selection, Winner)>): (r: seq<nat>)
    ensures |r| == |rounds|
    ensures forall i :: 0 <= i < |rounds| ==> r[i] == RoundScore(rounds[i].0, rounds[i].1)
  {
    if rounds == [] then [] else [RoundScore(rounds[0].0, rounds[0].1)] + Scores(rounds[1..])
  }

  /** The sum of the round scores lies between one and nine points per round. */
  lemma {:induction false} TotalScoreBounds(rounds: seq<(Selection, Winner)>)
    ensures |rounds| <= Sum(Scores(rounds)) <= 9 * |rounds|
  {
    if rounds != [] {
      TotalScoreBounds(rounds[1..]);
      assert Scores(rounds)[1..] == Scores(rounds[1..]);
    }
  }

  /** The whole program, without reading the file and printing. */
  function Solve(input: string): (r: Result<nat>)
    ensures var pairs := Pairs(Words(input, AsciiWhitespace));
      r.Ok? <==> ParseRounds(pairs).Ok?
    ensures var pairs := Pairs(Words(input, AsciiWhitespace));
      r.Ok? ==> r.value == Sum(Scores(ParseRounds(pairs).value))
  {
    var rounds :- ParseRounds(Pairs(Words(input, AsciiWhitespace)));
    Ok(Sum(Scores(rounds)))
  }

  /** The guide's text for a list of rounds: the two letters of each round in turn. */
  function Render(rounds: seq<(Selection, Winner)>): (tokens: seq<string>)
    ensures |tokens| == 2 * |rounds|
  {
    if rounds == [] then []
    else [SelectionCode(rounds[0].0), WinnerCode(rounds[0].1)] + Render(rounds[1..])
  }

  lemma {:induction false} RenderedTokensAreLetters(rounds: seq<(Selection, Winner)>)
    ensures forall k :: 0 <= k < |Render(rounds)| ==> |Render(rounds)[k]| == 1 && 'A' <= Render(rounds)[k][0] <= 'Z'
  {
    if rounds != [] {
      RenderedTokensAreLetters(rounds[1..]);
      var tokens := Render(rounds);
      var rest := Render(rounds[1..]);
      assert tokens == [SelectionCode(rounds[0].0), WinnerCode(rounds[0].1)] + rest;
      forall k | 0 <= k < |tokens|
        ensures |tokens[k]| == 1 && 'A' <= tokens[k][0] <= 'Z'
      {
        if k == 0 {
          assert tokens[k] == SelectionCode(rounds[0].0);
        } else if k == 1 {
          assert tokens[k] == WinnerCode(rounds[0].1);
        } else {
          assert tokens[k] == rest[k - 2];
        }
      }
    }
  }

  lemma RenderedTokensAreWords(rounds: seq<(Selection, Winner)>)
    ensures forall k :: 0 <= k < |Render(rounds)| ==> |Render(rounds)[k]| > 0
    ensures forall k, j :: 0 <= k < |Render(rounds)| && 0 <= j < |Render(rounds)[k]| ==>
      !IsSpace(AsciiWhitespace, Render(rounds)[k][j])
  {
    RenderedTokensAreLetters(rounds);
  }

  lemma {:induction false} ParseRendered(rounds: seq<(Selection, Winner)>)
    ensures ParseRounds(Pairs(Render(rounds))) == Ok(rounds)
  {
    if rounds != [] {
      var tokens := Render(rounds);
      var rest := Render(rounds[1..]);
      assert tokens == [SelectionCode(rounds[0].0), WinnerCode(rounds[0].1)] + rest;
      assert tokens[2..] == rest;
      var pairs := Pairs(tokens);
      assert pairs == [(tokens[0], tokens[1])] + Pairs(rest);
      assert pairs[1..] == Pairs(rest);
      ParseSelectionCode(rounds[0].0, tokens[0]);
      ParseWinnerCode(rounds[0].1, tokens[1]);
      ParseRendered(rounds[1..]);
      assert rounds == [rounds[0]] + rounds[1..];
    }
  }

  /** Reading back a rendered guide yields exactly the rounds' total score. */
  lemma SolveRender(rounds: seq<(Selection, Winner)>)
    requires |rounds| > 0
    ensures Solve(Unwords(Render(rounds))) == Ok(Sum(Scores(rounds)))
  {
    var tokens := Render(rounds);
    RenderedTokensAreWords(rounds);
    WordsOfUnwords(tokens, AsciiWhitespace);
    ParseRendered(rounds);
  }
}
