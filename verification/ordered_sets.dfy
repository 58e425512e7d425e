/**
 * JavaScript's `Set` as the source uses it: a collection without duplicates
 * that iterates in first-insertion order.  A set is represented by the
 * sequence of its elements in that order.
 */
module OrderedSets {

  predicate NoDup<T(==)>(s: seq<T>) {
    forall i, j :: 0 <= i < j < |s| ==> s[i] != s[j]
  }

  /** `Array.from(new Set(s))`: the first occurrence of each element, in order. */
  function Dedup<T(==)>(s: seq<T>): seq<T> {
    if s == [] then []
    else
      var d := Dedup(s[..|s| - 1]);
      if s[|s| - 1] in d then d else d + [s[|s| - 1]]
  }

  /** The elements of `s` that do not occur in `excluded`, in order (`Set.delete` for each excluded element). */
  function Unlisted<T(==)>(s: seq<T>, excluded: seq<T>): seq<T> {
    if s == [] then []
    else
      var u := Unlisted(s[..|s| - 1], excluded);
      if s[|s| - 1] in excluded then u else u + [s[|s| - 1]]
  }

  /** Deduplication keeps exactly the elements of its input, each once. */
  lemma {:induction false} DedupFacts<T>(s: seq<T>)
    ensures NoDup(Dedup(s))
    ensures forall x :: x in Dedup(s) <==> x in s
  {
    if s != [] {
      var init := s[..|s| - 1];
      DedupFacts(init);
      assert s == init + [s[|s| - 1]];
    }
  }

  /** Deduplicating a sequence that has no duplicates changes nothing. */
  lemma {:induction false} DedupOfNoDup<T>(s: seq<T>)
    requires NoDup(s)
    ensures Dedup(s) == s
  {
    if s != [] {
      var init := s[..|s| - 1];
      DedupOfNoDup(init);
      assert s == init + [s[|s| - 1]];
    }
  }

  lemma {:induction false} UnlistedFacts<T>(s: seq<T>, excluded: seq<T>)
    ensures forall x :: x in Unlisted(s, excluded) <==> x in s && x !in excluded
  {
    if s != [] {
      var init := s[..|s| - 1];
      UnlistedFacts(init, excluded);
      assert s == init + [s[|s| - 1]];
    }
  }

  /**
   * Inserting `a` and then `b` into an empty set: `a`'s distinct elements
   * first, then the distinct elements of `b` that `a` did not have, in the
   * order `b` first mentions them.
   */
  lemma {:induction false} DedupAppend<T>(a: seq<T>, b: seq<T>)
    ensures Dedup(a + b) == Dedup(a) + Dedup(Unlisted(b, a))
    decreases |b|
  {
    if b == [] {
      assert a + b == a;
    } else {
      var init, x := b[..|b| - 1], b[|b| - 1];
      assert b == init + [x];
      assert a + b == (a + init) + [x];
      DedupAppend(a, init);
      DedupSnoc(a + init, x);
      UnlistedSnoc(init, x, a);
      DedupMember(a, x);
      DedupSnoc(Unlisted(init, a), x);
      AppendStep(Dedup(a), Dedup(Unlisted(init, a)), x);
    }
  }

  /** Adding `x` behind `da + du`, where `x` is new to `da` exactly when it is new to the whole. */
  lemma AppendStep<T>(da: seq<T>, du: seq<T>, x: T)
    ensures x !in da ==>
      (if x in da + du then da + du else da + du + [x]) == da + (if x in du then du else du + [x])
  {
  }

  lemma DedupMember<T>(s: seq<T>, x: T)
    ensures x in Dedup(s) <==> x in s
  {
    DedupFacts(s);
  }

  lemma DedupSnoc<T>(s: seq<T>, x: T)
    ensures Dedup(s + [x]) == if x in Dedup(s) then Dedup(s) else Dedup(s) + [x]
  {
    assert (s + [x])[..|s + [x]| - 1] == s;
  }

  lemma UnlistedSnoc<T>(s: seq<T>, x: T, excluded: seq<T>)
    ensures Unlisted(s + [x], excluded) == if x in excluded then Unlisted(s, excluded) else Unlisted(s, excluded) + [x]
  {
    assert (s + [x])[..|s + [x]| - 1] == s;
  }

  /** Builds the set of a sequence by inserting its elements one after another. */
  method FromSeq<T(==)>(s: seq<T>) returns (r: seq<T>)
    ensures r == Dedup(s)
  {
    r := [];
    for i := 0 to |s|
      invariant r == Dedup(s[..i])
    {
      assert s[..i + 1][..i] == s[..i];
      if s[i] !in r {
        r := r + [s[i]];
      }
    }
    assert s[..|s|] == s;
  }

  /** `set.delete(x)`: removes `x`, keeping the order of the rest, and answers whether `x` was there. */
  method Delete<T(==)>(s: seq<T>, x: T) returns (r: seq<T>, present: bool)
    ensures r == Unlisted(s, [x])
    ensures present <==> x in s
  {
    r, present := [], false;
    for i := 0 to |s|
      invariant r == Unlisted(s[..i], [x])
      invariant present <==> x in s[..i]
    {
      assert s[..i + 1][..i] == s[..i];
      if s[i] == x {
        present := true;
      } else {
        r := r + [s[i]];
      }
    }
    assert s[..|s|] == s;
  }
}
