/** Results of operations that may have nothing to return, or may fail. */
module Wrappers {
  datatype Option<+T> = None | Some(value: T)

  datatype Result<+T, +E> = Ok(value: T) | Err(error: E)

  /** Applies `f` along a list and collects the results; the first failure ends it. */
  function Traverse<A, B, E>(f: A -> Result<B, E>, xs: seq<A>): Result<seq<B>, E> {
    if xs == [] then Ok([])
    else
      match Traverse(f, xs[..|xs| - 1])
      case Err(e) => Err(e)
      case Ok(ys) =>
        match f(xs[|xs| - 1])
        case Err(e) => Err(e)
        case Ok(y) => Ok(ys + [y])
  }

  lemma {:induction false} TraverseOk<A, B, E>(f: A -> Result<B, E>, xs: seq<A>, ys: seq<B>)
    requires |xs| == |ys|
    requires forall i :: 0 <= i < |xs| ==> f(xs[i]) == Ok(ys[i])
    ensures Traverse(f, xs) == Ok(ys)
  {
    if xs != [] {
      var n := |xs| - 1;
      TraverseOk(f, xs[..n], ys[..n]);
      assert ys == ys[..n] + [ys[n]];
    }
  }

  lemma {:induction false} TraverseElements<A, B, E>(f: A -> Result<B, E>, xs: seq<A>)
    ensures var r := Traverse(f, xs);
      r.Ok? ==> |r.value| == |xs| && forall i :: 0 <= i < |xs| ==> f(xs[i]) == Ok(r.value[i])
  {
    if xs != [] {
      TraverseElements(f, xs[..|xs| - 1]);
    }
  }

  lemma {:induction false} TraverseFirstError<A, B, E>(f: A -> Result<B, E>, xs: seq<A>, k: nat)
    requires k <= |xs|
    ensures Traverse(f, xs[..k]).Err? ==> Traverse(f, xs) == Traverse(f, xs[..k])
    decreases |xs| - k
  {
    if k < |xs| {
      TraverseFirstError(f, xs, k + 1);
      assert xs[..k + 1][..k] == xs[..k];
    } else {
      assert xs[..k] == xs;
    }
  }

  lemma {:induction false} TraverseError<A, B, E>(f: A -> Result<B, E>, xs: seq<A>) returns (i: nat)
    requires Traverse(f, xs).Err?
    ensures i < |xs| && f(xs[i]) == Err(Traverse(f, xs).error)
  {
    i := |xs| - 1;
    if Traverse(f, xs[..i]).Err? {
      i := TraverseError(f, xs[..i]);
    }
  }

  /** The first complaint in a list, if there is one. */
  function FirstSome<E>(issues: seq<Option<E>>, from: nat): Option<E>
    requires from <= |issues|
    decreases |issues| - from
  {
    if from == |issues| then None
    else if issues[from].Some? then issues[from]
    else FirstSome(issues, from + 1)
  }

  lemma {:induction false} FirstSomeNone<E>(issues: seq<Option<E>>, from: nat)
    requires from <= |issues|
    ensures FirstSome(issues, from) == None <==> forall i :: from <= i < |issues| ==> issues[i] == None
    decreases |issues| - from
  {
    if from < |issues| {
      FirstSomeNone(issues, from + 1);
    }
  }
}
