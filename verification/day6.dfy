/** Day 6: the start-of-packet marker is the first run of four consecutive
    bytes that are all different; the answer is how many bytes have been read
    when it is complete. */
module Day6 {
  import opened Results

  /** `LENGTH`: the width of the window. */
  const Length: nat := 4

  predicate AllDistinct<T(==)>(w: seq<T>) {
    forall i, j :: 0 <= i < j < |w| ==> w[i] != w[j]
  }

  function Elements<T>(w: seq<T>): set<T> {
    set x | x in w
  }

  /** `window.into_iter().unique().count()`: how many different values the
      window holds. The program's test `unique().count() == window.len()`
      holds exactly when the window has no repeated value. */
  function UniqueCount<T(==)>(w: seq<T>): (n: nat)
    ensures n <= |w|
    ensures n == |w| <==> AllDistinct(w)
  {
    DistinctElements(w);
    |Elements(w)|
  }

  /** A sequence has as many different elements as it has positions exactly
      when no value repeats. */
  lemma {:induction false} DistinctElements<T>(w: seq<T>)
    ensures |Elements(w)| <= |w|
    ensures |Elements(w)| == |w| <==> AllDistinct(w)
  {
    if w != [] {
      DistinctElements(w[1..]);
      assert Elements(w) == {w[0]} + Elements(w[1..]);
      if w[0] in w[1..] {
        var k :| 0 <= k < |w[1..]| && w[1..][k] == w[0];
        assert w[k + 1] == w[0];
        assert Elements(w) == Elements(w[1..]);
      } else {
        assert w[0] !in Elements(w[1..]);
        if AllDistinct(w[1..]) {
          forall i, j | 0 <= i < j < |w|
            ensures w[i] != w[j]
          {
            if i > 0 {
              assert w[i] == w[1..][i - 1] && w[j] == w[1..][j - 1];
            } else {
              assert w[j] in w[1..];
            }
          }
        }
      }
    }
  }

  /** A marker window ends at offset `i + Length`. */
  predicate MarkerAt<T(==)>(s: seq<T>, i: nat) {
    i + Length <= |s| && UniqueCount(s[i..i + Length]) == Length
  }

  /** `windows(LENGTH).enumerate().filter(..).next()`, searching from `from`,
      reported as the offset just past the window. */
  function FirstMarkerFrom<T(==)>(s: seq<T>, from: nat): (r: Result<nat>)
    ensures r.Ok? ==> from + Length <= r.value <= |s| && MarkerAt(s, r.value - Length)
    ensures r.Ok? ==> forall i :: from <= i < r.value - Length ==> !MarkerAt(s, i)
    ensures r.Err? ==> forall i :: from <= i ==> !MarkerAt(s, i)
    decreases |s| - from
  {
    if from + Length > |s| then Err("Failed to find marker")
    else if MarkerAt(s, from) then Ok(from + Length)
    else FirstMarkerFrom(s, from + 1)
  }

  /** The window of `Length` values starting at `i` has no repeated value. */
  predicate DistinctWindow<T(==)>(s: seq<T>, i: nat) {
    i + Length <= |s| && AllDistinct(s[i..i + Length])
  }

  /** The whole program on the input's bytes, without reading the file and printing. */
  function FirstMarker<T(==)>(s: seq<T>): (r: Result<nat>)
    ensures r.Ok? ==> Length <= r.value <= |s| && DistinctWindow(s, r.value - Length)
    ensures r.Ok? ==> forall i :: 0 <= i < r.value - Length ==> !DistinctWindow(s, i)
    ensures r.Err? <==> forall i :: 0 <= i ==> !DistinctWindow(s, i)
  {
    var r := FirstMarkerFrom(s, 0);
    forall i | 0 <= i
      ensures MarkerAt(s, i) <==> DistinctWindow(s, i)
    {
      if i + Length <= |s| {
        assert UniqueCount(s[i..i + Length]) == Length <==> AllDistinct(s[i..i + Length]);
      }
    }
    r
  }

  /** The worked example: in `bvwbjplbgvbhsrlpgdmjqwftvncz` the first window
      without repeats is `vwbj`, complete after 5 characters. */
  lemma Example()
    ensures FirstMarker("bvwbjplbgvbhsrlpgdmjqwftvncz") == Ok(5)
  {
    var s := "bvwbjplbgvbhsrlpgdmjqwftvncz";
    assert s[0] == 'b' && s[1] == 'v' && s[2] == 'w' && s[3] == 'b' && s[4] == 'j';
    assert s[0..4][0] == s[0] && s[0..4][3] == s[3];
    assert !DistinctWindow(s, 0);
    var w := s[1..5];
    assert w[0] == s[1] && w[1] == s[2] && w[2] == s[3] && w[3] == s[4];
    assert DistinctWindow(s, 1);
  }
}
