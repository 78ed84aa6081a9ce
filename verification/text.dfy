/** The pieces of Rust's `str` API that the puzzle programs rely on: splitting on
    a character or a string, `lines`, `split_whitespace`,
    `split_ascii_whitespace`, `split_once` and `parse` for unsigned integers.
    Strings are sequences of Unicode scalar values; byte offsets and UTF-8
    encoding are not modelled. */
module Text {
  import opened Results

  /** Position of the first `c` in `s`. */
  function IndexOf(s: string, c: char): (i: nat)
    requires c in s
    ensures i < |s| && s[i] == c && c !in s[..i]
    ensures forall k :: 0 <= k < i ==> s[k] != c
  {
    if s[0] == c then 0
    else
      var i := 1 + IndexOf(s[1..], c);
      assert s[..i] == [s[0]] + s[1..][..i - 1];
      i
  }

  /** When `s` is `a`, then `c`, then anything, with no `c` in `a`, the first `c` sits right after `a`. */
  lemma IndexOfAfterPrefix(a: string, c: char, b: string)
    requires c !in a
    ensures IndexOf(a + [c] + b, c) == |a|
  {
    var s := a + [c] + b;
    assert s[|a|] == c;
  }

  /** The inverse of `Split`: the pieces glued back together with `sep` between them. */
  function Join(pieces: seq<string>, sep: char): string
    requires |pieces| >= 1
  {
    if |pieces| == 1 then pieces[0] else pieces[0] + [sep] + Join(pieces[1..], sep)
  }

  /** Rust's `s.split(sep)` for a one-character pattern: the maximal pieces between
      occurrences of `sep`, always at least one (possibly empty) piece. */
  function Split(s: string, sep: char): (pieces: seq<string>)
    ensures |pieces| >= 1
    ensures forall k :: 0 <= k < |pieces| ==> sep !in pieces[k]
    ensures Join(pieces, sep) == s
    decreases |s|
  {
    if sep !in s then [s]
    else
      var i := IndexOf(s, sep);
      var rest := Split(s[i + 1..], sep);
      assert ([s[..i]] + rest)[1..] == rest;
      assert s == s[..i] + [sep] + s[i + 1..];
      [s[..i]] + rest
  }

  /** Splitting undoes joining: the separator-free pieces come back unchanged. */
  lemma {:induction false} SplitJoin(pieces: seq<string>, sep: char)
    requires |pieces| >= 1
    requires forall k :: 0 <= k < |pieces| ==> sep !in pieces[k]
    ensures Split(Join(pieces, sep), sep) == pieces
    decreases |pieces|
  {
    if |pieces| > 1 {
      var rest := Join(pieces[1..], sep);
      IndexOfAfterPrefix(pieces[0], sep, rest);
      var s := pieces[0] + [sep] + rest;
      assert s[..|pieces[0]|] == pieces[0];
      assert s[|pieces[0]| + 1..] == rest;
      SplitJoin(pieces[1..], sep);
      assert pieces == [pieces[0]] + pieces[1..];
    }
  }

  /** `sep` occurs in `s` starting at offset `i`. */
  predicate OccursAt(s: string, sep: string, i: nat) {
    i + |sep| <= |s| && s[i..i + |sep|] == sep
  }

  /** The first offset at or after `from` where `sep` occurs, or `|s|` when there is none. */
  function FindFrom(s: string, sep: string, from: nat): (i: nat)
    requires |sep| > 0 && from <= |s|
    ensures from <= i <= |s|
    ensures i < |s| ==> OccursAt(s, sep, i)
    ensures forall j :: from <= j < i ==> !OccursAt(s, sep, j)
    decreases |s| - from
  {
    if from == |s| || OccursAt(s, sep, from) then from
    else FindFrom(s, sep, from + 1)
  }

  /** An occurrence inside a prefix is an occurrence in the whole string. */
  lemma OccursInPrefix(s: string, sep: string, n: nat, j: nat)
    requires n <= |s| && OccursAt(s[..n], sep, j)
    ensures OccursAt(s, sep, j)
  {
    assert s[..n][j..j + |sep|] == s[j..j + |sep|];
  }

  /** The inverse of `SplitOn`. */
  function JoinOn(pieces: seq<string>, sep: string): string
    requires |pieces| >= 1
  {
    if |pieces| == 1 then pieces[0] else pieces[0] + sep + JoinOn(pieces[1..], sep)
  }

  /** Rust's `s.split(sep)` for a non-empty string pattern: occurrences are found
      left to right without overlap, and no piece contains the separator. */
  function SplitOn(s: string, sep: string): (pieces: seq<string>)
    requires |sep| > 0
    ensures |pieces| >= 1
    ensures forall k, j :: 0 <= k < |pieces| ==> !OccursAt(pieces[k], sep, j)
    ensures JoinOn(pieces, sep) == s
    decreases |s|
  {
    var i := FindFrom(s, sep, 0);
    if i == |s| then
      [s]
    else
      var rest := SplitOn(s[i + |sep|..], sep);
      forall j | OccursAt(s[..i], sep, j)
        ensures false
      {
        OccursInPrefix(s, sep, i, j);
      }
      assert ([s[..i]] + rest)[1..] == rest;
      assert s == s[..i] + sep + s[i + |sep|..];
      [s[..i]] + rest
  }

  /** Rust's `str::lines` for text with `\n` line endings: the pieces between
      newlines, except that a final newline does not start an extra empty line. */
  function Lines(s: string): (lines: seq<string>)
    ensures forall k :: 0 <= k < |lines| ==> '\n' !in lines[k]
    ensures s == "" ==> lines == []
    ensures s != "" ==> |lines| >= 1 && Join(lines, '\n') + (if s[|s| - 1] == '\n' then "\n" else "") == s
  {
    if s == "" then []
    else
      var pieces := Split(s, '\n');
      if pieces[|pieces| - 1] == "" then
        LastPieceEmpty(pieces);
        pieces[..|pieces| - 1]
      else
        JoinEndsWithLast(pieces, '\n');
        var last := pieces[|pieces| - 1];
        assert s[|s| - 1] == last[|last| - 1];
        pieces
  }

  lemma {:induction false} LastPieceEmpty(pieces: seq<string>)
    requires |pieces| >= 2 && pieces[|pieces| - 1] == ""
    ensures Join(pieces, '\n') == Join(pieces[..|pieces| - 1], '\n') + "\n"
    decreases |pieces|
  {
    if |pieces| > 2 {
      LastPieceEmpty(pieces[1..]);
      assert pieces[1..][..|pieces| - 2] == pieces[..|pieces| - 1][1..];
    }
  }

  /** A joined string ends with its last piece. */
  lemma {:induction false} JoinEndsWithLast(pieces: seq<string>, sep: char)
    requires |pieces| >= 1
    ensures var j := Join(pieces, sep); var last := pieces[|pieces| - 1];
      |last| <= |j| && j[|j| - |last|..] == last
    decreases |pieces|
  {
    if |pieces| > 1 {
      JoinEndsWithLast(pieces[1..], sep);
    }
  }

  /** `lines` undoes joining lines with a terminating newline after each. */
  lemma LinesOfTerminated(lines: seq<string>)
    requires |lines| >= 1
    requires forall k :: 0 <= k < |lines| ==> '\n' !in lines[k]
    ensures Lines(Join(lines, '\n') + "\n") == lines
  {
    var s := Join(lines, '\n') + "\n";
    var pieces := lines + [""];
    LastPieceEmpty(pieces);
    assert pieces[..|pieces| - 1] == lines;
    SplitJoin(pieces, '\n');
  }

  /** `lines` undoes joining lines with newlines, as long as the last line is not empty. */
  lemma LinesOfJoin(lines: seq<string>)
    requires |lines| >= 1 && lines[|lines| - 1] != ""
    requires forall k :: 0 <= k < |lines| ==> '\n' !in lines[k]
    ensures Lines(Join(lines, '\n')) == lines
  {
    var s := Join(lines, '\n');
    var last := lines[|lines| - 1];
    JoinEndsWithLast(lines, '\n');
    assert s[|s| - 1] == last[|last| - 1] != '\n';
    var found := Lines(s);
    assert Join(found, '\n') == s;
    SplitJoin(found, '\n');
    SplitJoin(lines, '\n');
  }

  /** Non-empty lines joined with newlines never hold two newlines in a row. */
  lemma {:induction false} NoBlankLineInJoin(lines: seq<string>)
    requires |lines| >= 1
    requires forall k :: 0 <= k < |lines| ==> |lines[k]| > 0 && '\n' !in lines[k]
    ensures forall j :: !OccursAt(Join(lines, '\n'), "\n\n", j)
    ensures var s := Join(lines, '\n'); |s| > 0 && s[|s| - 1] != '\n'
    decreases |lines|
  {
    var s := Join(lines, '\n');
    JoinEndsWithLast(lines, '\n');
    var last := lines[|lines| - 1];
    assert s[|s| - 1] == last[|last| - 1];
    var first := lines[0];
    if |lines| > 1 {
      var rest := Join(lines[1..], '\n');
      NoBlankLineInJoin(lines[1..]);
      assert s == first + "\n" + rest;
      forall j: nat
        ensures !OccursAt(s, "\n\n", j)
      {
        if j + 2 > |s| {
        } else if j < |first| {
          assert s[j] == first[j] != '\n';
        } else if j == |first| {
          assert s[j + 1] == rest[0] == lines[1][0] != '\n';
        } else {
          var k := j - |first| - 1;
          assert s[j..j + 2] == rest[k..k + 2];
          assert !OccursAt(rest, "\n\n", k);
        }
        if j + 2 <= |s| {
          assert s[j..j + 2][0] == s[j] && s[j..j + 2][1] == s[j + 1];
        }
      }
    } else {
      forall j: nat
        ensures !OccursAt(s, "\n\n", j)
      {
        if j + 2 <= |s| {
          assert s[j] == first[j] != '\n';
          assert s[j..j + 2][0] == s[j];
        }
      }
    }
  }

  /** The first occurrence of a separator is where `FindFrom` stops. */
  lemma FindFirst(s: string, sep: string, i: nat)
    requires |sep| > 0 && OccursAt(s, sep, i)
    requires forall j :: 0 <= j < i ==> !OccursAt(s, sep, j)
    ensures FindFrom(s, sep, 0) == i
  {
  }

  /** Which notion of whitespace a split uses: `split_ascii_whitespace` uses
      `char::is_ascii_whitespace`, `split_whitespace` uses `char::is_whitespace`
      (the Unicode White_Space property). */
  datatype Whitespace = AsciiWhitespace | UnicodeWhitespace

  predicate IsSpace(ws: Whitespace, c: char) {
    match ws
    case AsciiWhitespace =>
      c == ' ' || c == '\t' || c == '\n' || c == '\U{000C}' || c == '\r'
    case UnicodeWhitespace =>
      || ('\t' <= c <= '\r')
      || c == ' ' || c == '\U{0085}' || c == '\U{00A0}' || c == '\U{1680}'
      || ('\U{2000}' <= c <= '\U{200A}')
      || c == '\U{2028}' || c == '\U{2029}' || c == '\U{202F}' || c == '\U{205F}' || c == '\U{3000}'
  }

  /** Letters and digits are not whitespace under either notion. */
  lemma AlphanumericIsNotSpace(ws: Whitespace, c: char)
    requires 'A' <= c <= 'Z' || 'a' <= c <= 'z' || '0' <= c <= '9'
    ensures !IsSpace(ws, c)
  {
  }

  /** Length of the leading run of non-separator characters of `s`. */
  function RunLength(s: string, ws: Whitespace): (n: nat)
    ensures n <= |s|
    ensures forall k :: 0 <= k < n ==> !IsSpace(ws, s[k])
    ensures n < |s| ==> IsSpace(ws, s[n])
  {
    if s == [] || IsSpace(ws, s[0]) then 0 else 1 + RunLength(s[1..], ws)
  }

  /** The characters of `s` that are not separators, in order. */
  function Strip(s: string, ws: Whitespace): string {
    if s == [] then [] else (if IsSpace(ws, s[0]) then [] else [s[0]]) + Strip(s[1..], ws)
  }

  function Concat(words: seq<string>): string {
    if words == [] then [] else words[0] + Concat(words[1..])
  }

  lemma {:induction false} StripConcat(a: string, b: string, ws: Whitespace)
    ensures Strip(a + b, ws) == Strip(a, ws) + Strip(b, ws)
    decreases |a|
  {
    if a != [] {
      assert (a + b)[1..] == a[1..] + b;
      StripConcat(a[1..], b, ws);
    } else {
      assert a + b == b;
    }
  }

  lemma StripRun(s: string, n: nat, ws: Whitespace)
    requires n <= |s| && forall k :: 0 <= k < n ==> !IsSpace(ws, s[k])
    ensures Strip(s[..n], ws) == s[..n]
    decreases n
  {
    if n > 0 {
      assert s[..n][1..] == s[1..][..n - 1];
      StripRun(s[1..], n - 1, ws);
    }
  }

  /** Rust's `split_whitespace` / `split_ascii_whitespace` with the matching
      separator predicate: the maximal non-empty runs of non-separators. */
  function Words(s: string, ws: Whitespace): (words: seq<string>)
    ensures forall k :: 0 <= k < |words| ==> |words[k]| > 0
    ensures forall k, j :: 0 <= k < |words| && 0 <= j < |words[k]| ==> !IsSpace(ws, words[k][j])
    ensures Concat(words) == Strip(s, ws)
    decreases |s|
  {
    if s == [] then []
    else if IsSpace(ws, s[0]) then
      Words(s[1..], ws)
    else
      var n := RunLength(s, ws);
      var rest := Words(s[n..], ws);
      assert s == s[..n] + s[n..];
      StripConcat(s[..n], s[n..], ws);
      StripRun(s, n, ws);
      assert ([s[..n]] + rest)[1..] == rest;
      [s[..n]] + rest
  }

  /** The inverse of `Words` on a list of words separated by single spaces. */
  function Unwords(words: seq<string>): string
    requires |words| >= 1
  {
    if |words| == 1 then words[0] else words[0] + " " + Unwords(words[1..])
  }

  /** Words without newlines joined by spaces make a single line. */
  lemma {:induction false} UnwordsHasNoNewline(words: seq<string>)
    requires |words| >= 1
    requires forall k :: 0 <= k < |words| ==> '\n' !in words[k]
    ensures '\n' !in Unwords(words)
    decreases |words|
  {
    if |words| > 1 {
      UnwordsHasNoNewline(words[1..]);
    }
  }

  /** Splitting on whitespace recovers words that were joined with single spaces. */
  lemma {:induction false} WordsOfUnwords(words: seq<string>, ws: Whitespace)
    requires |words| >= 1
    requires forall k :: 0 <= k < |words| ==> |words[k]| > 0
    requires forall k, j :: 0 <= k < |words| && 0 <= j < |words[k]| ==> !IsSpace(ws, words[k][j])
    ensures Words(Unwords(words), ws) == words
    decreases |words|
  {
    var w := words[0];
    if |words| == 1 {
      WordsOfWord(w, [], ws);
      assert w + [] == w;
    } else {
      var rest := Unwords(words[1..]);
      assert Unwords(words) == w + (" " + rest);
      WordsOfWord(w, " " + rest, ws);
      assert (" " + rest)[1..] == rest;
      WordsOfUnwords(words[1..], ws);
      assert words == [w] + words[1..];
    }
  }

  lemma WordsOfWord(w: string, rest: string, ws: Whitespace)
    requires |w| > 0 && forall j :: 0 <= j < |w| ==> !IsSpace(ws, w[j])
    requires rest == [] || IsSpace(ws, rest[0])
    ensures Words(w + rest, ws) == [w] + Words(rest, ws)
  {
    var s := w + rest;
    RunLengthOfWord(w, rest, ws);
    assert s[..|w|] == w && s[|w|..] == rest;
  }

  lemma RunLengthOfWord(w: string, rest: string, ws: Whitespace)
    requires forall j :: 0 <= j < |w| ==> !IsSpace(ws, w[j])
    requires rest == [] || IsSpace(ws, rest[0])
    ensures RunLength(w + rest, ws) == |w|
  {
    var s := w + rest;
    assert forall k :: 0 <= k < |w| ==> s[k] == w[k];
    assert rest != [] ==> s[|w|] == rest[0];
  }

  /** Rust's `s.split_once(c)`: the text before and after the first `c`, or `None`. */
  function SplitOnce(s: string, c: char): (r: Option<(string, string)>)
    ensures r.None? <==> c !in s
    ensures r.Some? ==> r.value.0 + [c] + r.value.1 == s && c !in r.value.0
  {
    if c !in s then None
    else
      var i := IndexOf(s, c);
      assert s == s[..i] + [c] + s[i + 1..];
      Some((s[..i], s[i + 1..]))
  }

  /** `split_once` cuts at the first occurrence, so a separator-free prefix comes back whole. */
  lemma SplitOnceAfterPrefix(a: string, c: char, b: string)
    requires c !in a
    ensures SplitOnce(a + [c] + b, c) == Some((a, b))
  {
    var s := a + [c] + b;
    IndexOfAfterPrefix(a, c, b);
    assert s[..|a|] == a && s[|a| + 1..] == b;
  }

  predicate IsDigit(c: char) {
    '0' <= c <= '9'
  }

  predicate AllDigits(s: string) {
    forall k :: 0 <= k < |s| ==> IsDigit(s[k])
  }

  function DigitValue(c: char): (d: nat)
    requires IsDigit(c)
    ensures d < 10
  {
    c as int - '0' as int
  }

  function DigitChar(d: nat): (c: char)
    requires d < 10
    ensures IsDigit(c) && DigitValue(c) == d
  {
    ('0' as int + d) as char
  }

  /** The value of a string of decimal digits, most significant first. */
  function DigitsValue(s: string): nat
    requires AllDigits(s)
    decreases |s|
  {
    if s == [] then 0 else DigitsValue(s[..|s| - 1]) * 10 + DigitValue(s[|s| - 1])
  }

  /** What `str::parse::<u32>` / `parse::<usize>` accepts: an optional `+`
      followed by at least one ASCII digit. */
  predicate IsNumeral(s: string) {
    || (|s| > 0 && AllDigits(s))
    || (|s| > 1 && s[0] == '+' && AllDigits(s[1..]))
  }

  /** `str::parse` for an unsigned integer type, without the width limit. */
  function ParseNat(s: string): (r: Result<nat>)
    ensures r.Ok? <==> IsNumeral(s)
  {
    if |s| == 0 then Err("cannot parse integer from empty string")
    else if (s[0] == '+' || s[0] == '-') && |s| == 1 then Err("invalid digit found in string")
    else
      var digits := if s[0] == '+' then s[1..] else s;
      if AllDigits(digits) then Ok(DigitsValue(digits)) else Err("invalid digit found in string")
  }

  /** Decimal rendering of `n` without leading zeros: the partner of `ParseNat`. */
  function NatToString(n: nat): (s: string)
    ensures |s| > 0 && AllDigits(s)
    ensures s[0] == '0' ==> n == 0
    decreases n
  {
    if n < 10 then [DigitChar(n)] else NatToString(n / 10) + [DigitChar(n % 10)]
  }

  /** Parsing the decimal rendering of a number gives the number back. */
  lemma {:induction false} ParseNatToString(n: nat)
    ensures ParseNat(NatToString(n)) == Ok(n)
    ensures ParseNat("+" + NatToString(n)) == Ok(n)
    decreases n
  {
    DigitsValueToString(n);
    var s := NatToString(n);
    assert ("+" + s)[1..] == s;
  }

  lemma {:induction false} DigitsValueToString(n: nat)
    ensures DigitsValue(NatToString(n)) == n
    decreases n
  {
    var s := NatToString(n);
    if n >= 10 {
      DigitsValueToString(n / 10);
      assert s[..|s| - 1] == NatToString(n / 10);
    }
  }
}
