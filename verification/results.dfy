/** A failure-compatible result type shared by every day's model. A Rust
    `unwrap`, `expect` or `unreachable!` that aborts the program on malformed
    input is modelled as an `Err` carrying a short description of the abort. */
module Results {

  datatype Result<+T> = Ok(value: T) | Err(error: string) {

    predicate IsFailure() {
      Err?
    }

    function PropagateFailure<U>(): Result<U>
      requires Err?
    {
      Err(error)
    }

    function Extract(): T
      requires Ok?
    {
      value
    }
  }

  datatype Option<+T> = None | Some(value: T)

  /** `iter.map(f).collect::<Result<Vec<_>, _>>()`: every item mapped, the
      first failure (in order) becoming the result. */
  function Collect<A, B>(f: A -> Result<B>, xs: seq<A>): (r: Result<seq<B>>)
    ensures r.Ok? <==> forall k :: 0 <= k < |xs| ==> f(xs[k]).Ok?
    ensures r.Ok? ==> |r.value| == |xs| && forall k :: 0 <= k < |xs| ==> r.value[k] == f(xs[k]).value
    ensures r.Err? ==> exists k :: 0 <= k < |xs| && f(xs[k]).Err? && r.error == f(xs[k]).error && forall j :: 0 <= j < k ==> f(xs[j]).Ok?
  {
    if xs == [] then Ok([])
    else
      var first := f(xs[0]);
      var rest := Collect(f, xs[1..]);
      assert forall k :: 1 <= k < |xs| ==> xs[k] == xs[1..][k - 1];
      if first.Err? then
        first.PropagateFailure()
      else if rest.Err? then
        var k :| 0 <= k < |xs[1..]| && f(xs[1..][k]).Err? && rest.error == f(xs[1..][k]).error && forall j :: 0 <= j < k ==> f(xs[1..][j]).Ok?;
        assert forall j :: 0 <= j < k + 1 ==> f(xs[j]).Ok?;
        assert xs[k + 1] == xs[1..][k];
        rest.PropagateFailure()
      else Ok([first.value] + rest.value)
  }

  /** When every item maps to a value, the values are collected in order. */
  lemma CollectOk<A, B>(f: A -> Result<B>, xs: seq<A>, ys: seq<B>)
    requires |xs| == |ys| && forall k :: 0 <= k < |xs| ==> f(xs[k]) == Ok(ys[k])
    ensures Collect(f, xs) == Ok(ys)
  {
    var r := Collect(f, xs);
    assert r.Ok?;
    assert r.value == ys;
  }
}
