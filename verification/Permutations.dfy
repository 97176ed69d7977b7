/** What does not depend on the order of a sequence: sums over it, and the multiset of what it maps to. */
module Permutations {
  import opened Prelude

  function FlatMap<A, B>(a: seq<A>, f: A -> seq<B>): seq<B> {
    if a == [] then [] else f(a[0]) + FlatMap(a[1..], f)
  }

  lemma {:induction false} FlatMapAppend<A, B>(a: seq<A>, b: seq<A>, f: A -> seq<B>)
    ensures FlatMap(a + b, f) == FlatMap(a, f) + FlatMap(b, f)
  {
    if a == [] {
      assert a + b == b;
    } else {
      FlatMapAppend(a[1..], b, f);
      assert (a + b)[1..] == a[1..] + b && (a + b)[0] == a[0];
      Assoc(f(a[0]), FlatMap(a[1..], f), FlatMap(b, f));
    }
  }

  lemma RemoveOne<A>(x: A, rest: seq<A>, l: seq<A>, r: seq<A>)
    requires multiset([x] + rest) == multiset(l + ([x] + r))
    ensures multiset(rest) == multiset(l + r)
  {
    assert multiset([x] + rest) == multiset{x} + multiset(rest);
    assert multiset(l + ([x] + r)) == multiset(l) + multiset([x] + r) == multiset{x} + multiset(l + r);
    assert multiset(rest) == multiset([x] + rest) - multiset{x};
  }

  /** Mapping and filtering a permutation gives a permutation. */
  lemma {:induction false} FlatMapPermutation<A, B>(a: seq<A>, b: seq<A>, f: A -> seq<B>)
    requires multiset(a) == multiset(b)
    ensures multiset(FlatMap(a, f)) == multiset(FlatMap(b, f))
  {
    if a == [] {
      assert |multiset(b)| == 0;
    } else {
      var x := a[0];
      assert x in multiset(b);
      var j :| 0 <= j < |b| && b[j] == x;
      var l, r := b[..j], b[j + 1..];
      assert a == [x] + a[1..];
      assert b == l + ([x] + r);
      RemoveOne(x, a[1..], l, r);
      FlatMapPermutation(a[1..], l + r, f);
      FlatMapAppend(l, r, f);
      FlatMapAppend(l, [x] + r, f);
      FlatMapAppend([x], r, f);
      assert FlatMap([x], f) == f(x) by {
        assert [x][1..] == [];
      }
    }
  }

  function Sum<A>(a: seq<A>, f: A -> nat): nat {
    if a == [] then 0 else f(a[0]) + Sum(a[1..], f)
  }

  lemma {:induction false} SumAppend<A>(a: seq<A>, b: seq<A>, f: A -> nat)
    ensures Sum(a + b, f) == Sum(a, f) + Sum(b, f)
  {
    if a == [] {
      assert a + b == b;
    } else {
      SumAppend(a[1..], b, f);
      assert (a + b)[1..] == a[1..] + b && (a + b)[0] == a[0];
    }
  }

  lemma {:induction false} SumPermutation<A>(a: seq<A>, b: seq<A>, f: A -> nat)
    requires multiset(a) == multiset(b)
    ensures Sum(a, f) == Sum(b, f)
  {
    if a == [] {
      assert |multiset(b)| == 0;
    } else {
      var x := a[0];
      assert x in multiset(b);
      var j :| 0 <= j < |b| && b[j] == x;
      var l, r := b[..j], b[j + 1..];
      assert a == [x] + a[1..];
      assert b == l + ([x] + r);
      RemoveOne(x, a[1..], l, r);
      SumPermutation(a[1..], l + r, f);
      SumAppend(l, r, f);
      SumAppend(l, [x] + r, f);
      assert ([x] + r)[1..] == r;
    }
  }

  /** Two functions that agree on the elements have the same sum over them. */
  lemma {:induction false} SumSame<A, B>(a: seq<A>, f: A -> nat, b: seq<B>, g: B -> nat)
    requires |a| == |b| && forall i :: 0 <= i < |a| ==> f(a[i]) == g(b[i])
    ensures Sum(a, f) == Sum(b, g)
  {
    if a != [] {
      SumSame(a[1..], f, b[1..], g);
    }
  }
}
