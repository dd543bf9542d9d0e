/** Failure-carrying values shared by every module of the model.

    Go functions in the repository return `(value, error)` or a bare `error`;
    an `error` is modelled by its message, the string `err.Error()` would give.
    A Go pointer that may be nil is an `Option`. */
module Wrappers {

  datatype Option<+T> = None | Some(value: T)

  /** `(value, nil)` or `(nil, err)`. */
  datatype Result<+T> = Ok(value: T) | Err(error: string)

  /** A Go `error` result on its own: nil or an error message. */
  datatype Outcome = Pass | Fail(error: string)

  /** The message of `fmt.Errorf("<prefix>: %w", err)`. */
  function Wrap(prefix: string, inner: string): string
  {
    prefix + ": " + inner
  }

  /** Puts `acc` in front of a successful list and passes an error through. */
  function Prepend<X>(acc: seq<X>, r: Result<seq<X>>): Result<seq<X>>
  {
    match r
    case Err(e) => Err(e)
    case Ok(rest) => Ok(acc + rest)
  }

  lemma PrependNil<X>(r: Result<seq<X>>)
    ensures Prepend([], r) == r
  {
    match r
    case Err(_) =>
    case Ok(rest) => assert [] + rest == rest;
  }

  lemma PrependOne<X>(acc: seq<X>, x: X, r: Result<seq<X>>)
    ensures Prepend(acc, Prepend([x], r)) == Prepend(acc + [x], r)
  {
    match r
    case Err(_) =>
    case Ok(rest) => assert acc + ([x] + rest) == acc + [x] + rest;
  }

  lemma PrependAll<X>(acc: seq<X>)
    ensures Prepend(acc, Ok([])) == Ok(acc)
  {
    assert acc + [] == acc;
  }

  /** The Go idiom "convert every element in order, return the first error":
      `for _, x := range xs { y, err := f(x); if err != nil { return nil, err }; ys = append(ys, y) }`. */
  function MapResults<A, B>(xs: seq<A>, f: A -> Result<B>): Result<seq<B>>
  {
    if xs == [] then Ok([])
    else
      match f(xs[0])
      case Err(e) => Err(e)
      case Ok(y) => Prepend([y], MapResults(xs[1..], f))
  }

  /** `MapResults` succeeds exactly when every element converts, and then
      holds the converted elements in order; otherwise it fails with the
      error of the first element that does not convert. */
  lemma {:induction false} MapResultsMeaning<A, B>(xs: seq<A>, f: A -> Result<B>)
    ensures var r := MapResults(xs, f);
            && (r.Ok? <==> forall i :: 0 <= i < |xs| ==> f(xs[i]).Ok?)
            && (r.Ok? ==> |r.value| == |xs| && forall i :: 0 <= i < |xs| ==> f(xs[i]) == Ok(r.value[i]))
            && (r.Err? ==> exists i :: 0 <= i < |xs| && f(xs[i]) == Err(r.error) && forall j :: 0 <= j < i ==> f(xs[j]).Ok?)
  {
    if xs != [] {
      var rest := xs[1..];
      MapResultsMeaning(rest, f);
      assert forall i :: 1 <= i < |xs| ==> rest[i - 1] == xs[i];
      var r := MapResults(rest, f);
      if f(xs[0]).Ok? && r.Err? {
        var k :| 0 <= k < |rest| && f(rest[k]) == Err(r.error) && forall j :: 0 <= j < k ==> f(rest[j]).Ok?;
        assert f(xs[k + 1]) == Err(r.error);
      }
    }
  }

  /** One step of a loop that walks `xs` front to back against `MapResults`. */
  lemma MapResultsStep<A, B>(xs: seq<A>, i: nat, f: A -> Result<B>)
    requires i < |xs|
    ensures MapResults(xs[i..], f) ==
              match f(xs[i])
              case Err(e) => Err(e)
              case Ok(y) => Prepend([y], MapResults(xs[i + 1..], f))
  {
    assert xs[i..][0] == xs[i] && xs[i..][1..] == xs[i + 1..];
  }
}
