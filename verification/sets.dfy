/** Python sets as the crawler uses them: turned into a list by `set(...)`'s
    inverse, iterated in an order the language does not fix. */
module Sets {

  /** `set(xs)` */
  function Elements<T(!new)>(xs: seq<T>): (r: set<T>)
    ensures forall x :: x in r <==> x in xs
  {
    set x | x in xs
  }

  predicate Distinct<T(==)>(xs: seq<T>) {
    forall i, j :: 0 <= i < j < |xs| ==> xs[i] != xs[j]
  }

  /** `xs` lists every member of `s` exactly once. */
  ghost predicate Enumerates<T(!new)>(xs: seq<T>, s: set<T>) {
    Distinct(xs) && forall x :: x in xs <==> x in s
  }

  /** Iterating over a set: every member once, in an order that is not
      specified (the choice of the next member is left open). */
  method Enumerate<T(==,!new)>(s: set<T>) returns (xs: seq<T>)
    ensures Enumerates(xs, s) && |xs| == |s|
  {
    xs := [];
    var rest := s;
    while rest != {}
      invariant rest <= s
      invariant Distinct(xs)
      invariant forall x :: x in xs <==> x in s && x !in rest
      invariant |xs| == |s - rest|
      decreases |rest|
    {
      var x :| x in rest;
      assert s - (rest - {x}) == (s - rest) + {x};
      xs := xs + [x];
      rest := rest - {x};
    }
    assert s - rest == s;
  }

  /** Removing the element at `j` (`list.pop(j)`) takes exactly that element
      out and keeps the order of the rest. */
  lemma RemoveAt<T>(s: seq<T>, j: int)
    requires 0 <= j < |s|
    ensures multiset(s[..j] + s[j + 1..]) + multiset{s[j]} == multiset(s)
    ensures forall x :: x in s[..j] + s[j + 1..] ==> x in s
  {
    assert s == s[..j] + [s[j]] + s[j + 1..];
  }
}
