/**
 * Applying a step that may throw to every element of a list in order: the
 * first element whose step fails ends the walk with that failure.
 */
module Results {
  import opened Wrappers

  /** The results of `f` over `s`, in order, or the failure of the first element that fails. */
  function MapAll<T, U, E>(s: seq<T>, f: T -> Result<U, E>): Result<seq<U>, E> {
    if s == [] then Success([])
    else
      match MapAll(s[..|s| - 1], f)
      case Failure(e) => Failure(e)
      case Success(done) =>
        match f(s[|s| - 1])
        case Failure(e) => Failure(e)
        case Success(u) => Success(done + [u])
  }

  /** A walk that succeeds has one result per element, each the element's own. */
  lemma {:induction false} MapAllSuccess<T, U, E>(s: seq<T>, f: T -> Result<U, E>)
    requires MapAll(s, f).Success?
    ensures |MapAll(s, f).value| == |s|
    ensures forall i :: 0 <= i < |s| ==> f(s[i]) == Success(MapAll(s, f).value[i])
  {
    if s != [] {
      MapAllSuccess(s[..|s| - 1], f);
    }
  }

  /** The walk fails exactly when some element fails, and then with the failure of the first such element. */
  lemma {:induction false} MapAllFailure<T, U, E>(s: seq<T>, f: T -> Result<U, E>)
    ensures MapAll(s, f).Failure? <==> exists i :: 0 <= i < |s| && f(s[i]).Failure?
    ensures MapAll(s, f).Failure? ==>
      exists i :: 0 <= i < |s| && f(s[i]) == Failure(MapAll(s, f).error) && forall j :: 0 <= j < i ==> f(s[j]).Success?
  {
    if s != [] {
      var init, last := s[..|s| - 1], s[|s| - 1];
      MapAllFailure(init, f);
      assert forall i :: 0 <= i < |init| ==> s[i] == init[i];
      if MapAll(init, f).Success? && f(last).Failure? {
        var n := |s| - 1;
        assert f(s[n]) == Failure(MapAll(s, f).error);
        assert forall j :: 0 <= j < n ==> f(s[j]).Success?;
      }
    }
  }

  /** A failure among the first elements is the failure of the whole walk. */
  lemma {:induction false} MapAllPrefixFails<T, U, E>(s: seq<T>, n: nat, f: T -> Result<U, E>)
    requires n <= |s| && MapAll(s[..n], f).Failure?
    ensures MapAll(s, f) == MapAll(s[..n], f)
    decreases |s| - n
  {
    if n < |s| {
      assert s[..n + 1][..n] == s[..n];
      MapAllPrefixFails(s, n + 1, f);
    } else {
      assert s[..n] == s;
    }
  }

  /** Extending a successful walk by one element. */
  lemma MapAllSnoc<T, U, E>(s: seq<T>, n: nat, f: T -> Result<U, E>)
    requires n < |s|
    ensures MapAll(s[..n + 1], f) ==
      match MapAll(s[..n], f)
      case Failure(e) => Failure(e)
      case Success(done) =>
        match f(s[n])
        case Failure(e) => Failure(e)
        case Success(u) => Success(done + [u])
  {
    assert s[..n + 1][..n] == s[..n];
  }

  /** A walk that succeeded on the first `n` elements goes on with element `n`. */
  lemma MapAllStep<T, U, E>(s: seq<T>, n: nat, f: T -> Result<U, E>, done: seq<U>, u: U)
    requires n < |s| && MapAll(s[..n], f) == Success(done) && f(s[n]) == Success(u)
    ensures MapAll(s[..n + 1], f) == Success(done + [u])
  {
    MapAllSnoc(s, n, f);
  }

  /** A walk that succeeded on the first `n` elements and fails on element `n` fails with that element's error. */
  lemma MapAllStopsAt<T, U, E>(s: seq<T>, n: nat, f: T -> Result<U, E>)
    requires n < |s| && MapAll(s[..n], f).Success? && f(s[n]).Failure?
    ensures MapAll(s, f) == Failure(f(s[n]).error)
  {
    MapAllSnoc(s, n, f);
    MapAllPrefixFails(s, n + 1, f);
  }
}
