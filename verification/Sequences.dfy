/** What several modules say about sequences. */
module Sequences {

  predicate Distinct<T(==)>(xs: seq<T>) {
    forall i, j | 0 <= i < j < |xs| :: xs[i] != xs[j]
  }

  function Flatten<T>(parts: seq<seq<T>>): seq<T> {
    if parts == [] then [] else parts[0] + Flatten(parts[1..])
  }

  lemma {:induction false} FlattenConcat<T>(a: seq<seq<T>>, b: seq<seq<T>>)
    ensures Flatten(a + b) == Flatten(a) + Flatten(b)
  {
    if a == [] {
      assert a + b == b;
    } else {
      assert (a + b)[1..] == a[1..] + b;
      FlattenConcat(a[1..], b);
    }
  }

  lemma FlattenOne<T>(part: seq<T>)
    ensures Flatten([part]) == part
  {
    assert [part][1..] == [];
  }

  lemma {:induction false} DistinctOnce<T>(xs: seq<T>, x: T)
    requires Distinct(xs)
    ensures multiset(xs)[x] <= 1
  {
    if xs != [] {
      DistinctOnce(xs[1..], x);
      assert xs == [xs[0]] + xs[1..];
      assert xs[0] !in multiset(xs[1..]);
    }
  }

  lemma PermutationStaysDistinct<T>(xs: seq<T>, ys: seq<T>)
    requires Distinct(xs) && multiset(ys) == multiset(xs)
    ensures Distinct(ys)
  {
    forall i, j | 0 <= i < j < |ys| ensures ys[i] != ys[j] {
      DistinctOnce(xs, ys[i]);
      assert ys == ys[..j] + [ys[j]] + ys[j + 1..];
      assert ys[i] == ys[..j][i];
      assert ys[i] in multiset(ys[..j]);
    }
  }
}
