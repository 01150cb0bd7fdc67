/** Option and the outcome of a Python computation that may raise. */
module Wrappers {

  datatype Option<+T> = None | Some(value: T) {
    /** The wrapped value, or `default` when there is none. */
    function GetOr(default: T): T {
      match this
      case Some(v) => v
      case None => default
    }
  }

  /** The two built-in exceptions the commission loop can raise. */
  datatype PyError =
    | IndexError  // a list subscript past the end of the list
    | ValueError  // float() applied to text that is not a number

  /** A value computed normally, or the exception that escaped instead. */
  datatype Outcome<+T> = Ok(value: T) | Raise(error: PyError)

  /**
   * Runs `f` over `xs` in order and collects the values, the way a loop whose
   * body may raise does: the first exception ends the run and escapes.
   */
  function Collect<A, B>(xs: seq<A>, f: A -> Outcome<B>): (r: Outcome<seq<B>>)
    ensures r.Ok? ==> |r.value| == |xs|
  {
    if xs == [] then Ok([])
    else
      var init := xs[..|xs| - 1];
      match Collect(init, f)
      case Raise(e) => Raise(e)
      case Ok(ys) =>
        match f(xs[|xs| - 1])
        case Raise(e) => Raise(e)
        case Ok(y) => Ok(ys + [y])
  }

  /**
   * A run succeeds exactly when every element succeeds, and then holds each
   * element's value at that element's place.
   */
  lemma {:induction false} CollectOk<A, B>(xs: seq<A>, f: A -> Outcome<B>)
    ensures Collect(xs, f).Ok? <==> forall i :: 0 <= i < |xs| ==> f(xs[i]).Ok?
    ensures Collect(xs, f).Ok? ==> forall i :: 0 <= i < |xs| ==> f(xs[i]) == Ok(Collect(xs, f).value[i])
  {
    if xs != [] {
      var init := xs[..|xs| - 1];
      CollectOk(init, f);
      assert forall i :: 0 <= i < |init| ==> init[i] == xs[i];
    }
  }

  /** When every element yields its value, the run yields them all, in order. */
  lemma {:induction false} CollectAll<A, B>(xs: seq<A>, f: A -> Outcome<B>, ys: seq<B>)
    requires |ys| == |xs| && forall i :: 0 <= i < |xs| ==> f(xs[i]) == Ok(ys[i])
    ensures Collect(xs, f) == Ok(ys)
  {
    if xs != [] {
      var n := |xs| - 1;
      assert forall i :: 0 <= i < n ==> xs[..n][i] == xs[i];
      CollectAll(xs[..n], f, ys[..n]);
      assert ys == ys[..n] + [ys[n]];
    }
  }

  /** A run that fails raises the exception of its first failing element. */
  lemma {:induction false} CollectFirstRaise<A, B>(xs: seq<A>, f: A -> Outcome<B>)
    requires Collect(xs, f).Raise?
    ensures exists i :: (0 <= i < |xs| && f(xs[i]) == Raise(Collect(xs, f).error)
      && forall j :: 0 <= j < i ==> f(xs[j]).Ok?)
  {
    var init := xs[..|xs| - 1];
    assert forall i :: 0 <= i < |init| ==> init[i] == xs[i];
    if Collect(init, f).Raise? {
      CollectFirstRaise(init, f);
      var i :| 0 <= i < |init| && f(init[i]) == Raise(Collect(init, f).error)
        && forall j :: 0 <= j < i ==> f(init[j]).Ok?;
      assert f(xs[i]) == Raise(Collect(xs, f).error);
    } else {
      CollectOk(init, f);
      assert f(xs[|xs| - 1]) == Raise(Collect(xs, f).error);
    }
  }

  /** A run that gets one element further appends that element's value. */
  lemma CollectStep<A, B>(xs: seq<A>, f: A -> Outcome<B>, n: nat, ys: seq<B>, y: B)
    requires n < |xs| && Collect(xs[..n], f) == Ok(ys) && f(xs[n]) == Ok(y)
    ensures Collect(xs[..n + 1], f) == Ok(ys + [y])
  {
    assert xs[..n + 1][..n] == xs[..n];
  }

  /** An element that raises after a clean prefix ends the whole run with its exception. */
  lemma CollectStepRaise<A, B>(xs: seq<A>, f: A -> Outcome<B>, n: nat, e: PyError)
    requires n < |xs| && Collect(xs[..n], f).Ok? && f(xs[n]) == Raise(e)
    ensures Collect(xs, f) == Raise(e)
  {
    assert xs[..n + 1][..n] == xs[..n];
    CollectRaise(xs, f, n + 1);
  }

  /** Once a prefix of the run raises, the whole run raises the same exception. */
  lemma {:induction false} CollectRaise<A, B>(xs: seq<A>, f: A -> Outcome<B>, n: nat)
    requires n <= |xs| && Collect(xs[..n], f).Raise?
    ensures Collect(xs, f) == Collect(xs[..n], f)
    decreases |xs| - n
  {
    if n < |xs| {
      assert xs[..n + 1][..n] == xs[..n];
      CollectRaise(xs, f, n + 1);
    } else {
      assert xs[..n] == xs;
    }
  }
}
