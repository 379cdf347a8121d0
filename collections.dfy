/**
 * The two list helpers of lodash that the task resolver uses: `uniq`, which
 * drops repeated values keeping the first occurrence of each, and
 * `intersection`, which keeps the distinct values of its first argument that
 * also occur in the second, in the first argument's order.
 */
module Collections {

  predicate NoDuplicates<T(==,!new)>(s: seq<T>) {
    forall i, j :: 0 <= i < j < |s| ==> s[i] != s[j]
  }

  /** lodash `uniq`. */
  function Uniq<T(==,!new)>(s: seq<T>): (r: seq<T>)
    ensures NoDuplicates(r)
    ensures forall x :: x in r <==> x in s
    ensures |r| <= |s|
  {
    if s == [] then []
    else
      var init, last := s[..|s| - 1], s[|s| - 1];
      assert s == init + [last];
      var u := Uniq(init);
      if last in u then u else u + [last]
  }

  /** A list without repeated values is its own `uniq`, so `uniq` is idempotent. */
  lemma {:induction false} UniqOfDistinct<T(!new)>(s: seq<T>)
    requires NoDuplicates(s)
    ensures Uniq(s) == s
  {
    if s != [] {
      var init := s[..|s| - 1];
      assert NoDuplicates(init);
      UniqOfDistinct(init);
      assert s[|s| - 1] !in init;
    }
  }

  /** The elements of `a` that occur in `b`, in `a`'s order, repeats kept. */
  function Keep<T(==,!new)>(a: seq<T>, b: seq<T>): (r: seq<T>)
    ensures forall x :: x in r <==> x in a && x in b
  {
    if a == [] then []
    else (if a[0] in b then [a[0]] else []) + Keep(a[1..], b)
  }

  /** lodash `intersection` of two lists. */
  function Intersection<T(==,!new)>(a: seq<T>, b: seq<T>): (r: seq<T>)
    ensures NoDuplicates(r)
    ensures forall x :: x in r <==> x in a && x in b
  {
    Uniq(Keep(a, b))
  }

  /** The intersection is non-empty exactly when the lists share a value. */
  lemma IntersectionNonEmpty<T(!new)>(a: seq<T>, b: seq<T>)
    ensures |Intersection(a, b)| > 0 <==> exists x :: x in a && x in b
  {
    if exists x :: x in a && x in b {
      var x :| x in a && x in b;
      assert x in Intersection(a, b);
    }
    if |Intersection(a, b)| > 0 {
      assert Intersection(a, b)[0] in a;
    }
  }
}
