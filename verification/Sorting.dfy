/** A stable sort by a comparison, as `Array.prototype.sort` is. */
module Sorting {

  ghost predicate TotalPreorder<T(!new)>(le: (T, T) -> bool) {
    && (forall x, y :: le(x, y) || le(y, x))
    && (forall x, y, z :: le(x, y) && le(y, z) ==> le(x, z))
  }

  ghost predicate SortedBy<T>(xs: seq<T>, le: (T, T) -> bool) {
    forall i, j | 0 <= i < j < |xs| :: le(xs[i], xs[j])
  }

  /** `x` put after everything that does not come after it. */
  function InsertLast<T>(xs: seq<T>, x: T, le: (T, T) -> bool): seq<T> {
    if xs == [] || le(xs[|xs| - 1], x) then xs + [x]
    else InsertLast(xs[..|xs| - 1], x, le) + [xs[|xs| - 1]]
  }

  function SortBy<T>(xs: seq<T>, le: (T, T) -> bool): seq<T> {
    if xs == [] then [] else InsertLast(SortBy(xs[..|xs| - 1], le), xs[|xs| - 1], le)
  }

  function Filter<T>(xs: seq<T>, p: T -> bool): seq<T> {
    if xs == [] then []
    else Filter(xs[..|xs| - 1], p) + (if p(xs[|xs| - 1]) then [xs[|xs| - 1]] else [])
  }

  lemma {:induction false} InsertKeepsElements<T>(xs: seq<T>, x: T, le: (T, T) -> bool)
    ensures multiset(InsertLast(xs, x, le)) == multiset(xs) + multiset{x}
  {
    if xs != [] && !le(xs[|xs| - 1], x) {
      InsertKeepsElements(xs[..|xs| - 1], x, le);
      assert xs == xs[..|xs| - 1] + [xs[|xs| - 1]];
    }
  }

  lemma {:induction false} InsertSorts<T(!new)>(xs: seq<T>, x: T, le: (T, T) -> bool)
    requires TotalPreorder(le) && SortedBy(xs, le)
    ensures SortedBy(InsertLast(xs, x, le), le)
  {
    if xs == [] {
    } else if le(xs[|xs| - 1], x) {
      forall i | 0 <= i < |xs| ensures le(xs[i], x) {
        assert i < |xs| - 1 ==> le(xs[i], xs[|xs| - 1]);
      }
    } else {
      var init, last := xs[..|xs| - 1], xs[|xs| - 1];
      InsertSorts(init, x, le);
      InsertKeepsElements(init, x, le);
      var r := InsertLast(init, x, le);
      forall y | y in r ensures le(y, last) {
        assert y in multiset(r);
        assert y == x || y in init;
      }
    }
  }

  lemma {:induction false} SortKeepsElements<T>(xs: seq<T>, le: (T, T) -> bool)
    ensures multiset(SortBy(xs, le)) == multiset(xs)
  {
    if xs != [] {
      var init, last := xs[..|xs| - 1], xs[|xs| - 1];
      SortKeepsElements(init, le);
      InsertKeepsElements(SortBy(init, le), last, le);
      MultisetOfLast(xs);
    }
  }

  lemma {:induction false} SortSorts<T(!new)>(xs: seq<T>, le: (T, T) -> bool)
    requires TotalPreorder(le)
    ensures SortedBy(SortBy(xs, le), le)
  {
    if xs != [] {
      SortSorts(xs[..|xs| - 1], le);
      InsertSorts(SortBy(xs[..|xs| - 1], le), xs[|xs| - 1], le);
    }
  }

  /** The elements that satisfy `p` cannot be told apart by the comparison. */
  ghost predicate Alike<T(!new)>(p: T -> bool, le: (T, T) -> bool) {
    forall x, y | p(x) && p(y) :: le(x, y)
  }

  lemma {:induction false} InsertIsStable<T(!new)>(xs: seq<T>, x: T, le: (T, T) -> bool, p: T -> bool)
    requires Alike(p, le)
    ensures Filter(InsertLast(xs, x, le), p) == Filter(xs, p) + (if p(x) then [x] else [])
  {
    if xs == [] || le(xs[|xs| - 1], x) {
      assert (xs + [x])[..|xs|] == xs;
    } else {
      var init, last := xs[..|xs| - 1], xs[|xs| - 1];
      InsertIsStable(init, x, le, p);
      var r := InsertLast(init, x, le);
      assert (r + [last])[..|r|] == r;
    }
  }

  /** Elements the comparison cannot tell apart keep their order. */
  lemma {:induction false} SortIsStable<T(!new)>(xs: seq<T>, le: (T, T) -> bool, p: T -> bool)
    requires Alike(p, le)
    ensures Filter(SortBy(xs, le), p) == Filter(xs, p)
  {
    if xs != [] {
      SortIsStable(xs[..|xs| - 1], le, p);
      InsertIsStable(SortBy(xs[..|xs| - 1], le), xs[|xs| - 1], le, p);
    }
  }

  lemma {:induction false} FilterIs<T>(xs: seq<T>, p: T -> bool)
    ensures forall x | x in Filter(xs, p) :: x in xs && p(x)
    ensures forall x | x in xs && p(x) :: x in Filter(xs, p)
  {
    if xs != [] {
      FilterIs(xs[..|xs| - 1], p);
      assert xs == xs[..|xs| - 1] + [xs[|xs| - 1]];
    }
  }

  /** Filtering keeps a list sorted. */
  lemma {:induction false} FilterSorted<T>(xs: seq<T>, le: (T, T) -> bool, p: T -> bool)
    requires SortedBy(xs, le)
    ensures SortedBy(Filter(xs, p), le)
  {
    if xs != [] {
      var init := xs[..|xs| - 1];
      FilterSorted(init, le, p);
      FilterIs(init, p);
      var kept := Filter(init, p);
      forall k | 0 <= k < |kept| ensures le(kept[k], xs[|xs| - 1]) {
        assert kept[k] in kept;
        assert kept[k] in init;
        var i :| 0 <= i < |init| && init[i] == kept[k];
      }
    }
  }

  lemma MultisetOfLast<T>(xs: seq<T>)
    requires xs != []
    ensures multiset(xs) == multiset(xs[..|xs| - 1]) + multiset{xs[|xs| - 1]}
  {
    assert xs == xs[..|xs| - 1] + [xs[|xs| - 1]];
  }

  /** What a filter takes and what it leaves make up the list. */
  lemma {:induction false} FilterSplits<T>(xs: seq<T>, p: T -> bool, q: T -> bool)
    requires forall i | 0 <= i < |xs| :: q(xs[i]) <==> !p(xs[i])
    ensures multiset(Filter(xs, p)) + multiset(Filter(xs, q)) == multiset(xs)
  {
    if xs != [] {
      MultisetOfLast(xs);
      FilterSplits(xs[..|xs| - 1], p, q);
    }
  }

  lemma {:induction false} FilterCommutes<T>(xs: seq<T>, p: T -> bool, q: T -> bool)
    ensures Filter(Filter(xs, p), q) == Filter(Filter(xs, q), p)
  {
    if xs != [] {
      var init, last := xs[..|xs| - 1], xs[|xs| - 1];
      FilterCommutes(init, p, q);
      FilterGrows(Filter(init, p), last, q);
      FilterGrows(Filter(init, q), last, p);
    }
  }

  lemma FilterGrows<T>(xs: seq<T>, x: T, p: T -> bool)
    ensures Filter(xs + [x], p) == Filter(xs, p) + (if p(x) then [x] else [])
    ensures Filter(xs + [], p) == Filter(xs, p)
  {
    assert (xs + [x])[..|xs|] == xs;
    assert xs + [] == xs;
  }

  lemma {:induction false} FilterConcat<T>(xs: seq<T>, ys: seq<T>, p: T -> bool)
    ensures Filter(xs + ys, p) == Filter(xs, p) + Filter(ys, p)
  {
    if ys == [] {
      assert xs + ys == xs;
    } else {
      var init, last := ys[..|ys| - 1], ys[|ys| - 1];
      FilterConcat(xs, init, p);
      FilterGrows(xs + init, last, p);
      assert xs + ys == xs + init + [last];
    }
  }

  /** Filtering all or nothing out. */
  lemma {:induction false} FilterExtremes<T>(xs: seq<T>, p: T -> bool)
    ensures (forall x | x in xs :: p(x)) ==> Filter(xs, p) == xs
    ensures (forall x | x in xs :: !p(x)) ==> Filter(xs, p) == []
  {
    if xs != [] {
      FilterExtremes(xs[..|xs| - 1], p);
      assert xs == xs[..|xs| - 1] + [xs[|xs| - 1]];
    }
  }

  lemma {:induction false} FilterOfMap<T(!new), U>(f: T -> U, xs: seq<T>, p: T -> bool, q: U -> bool)
    requires forall x :: p(x) <==> q(f(x))
    ensures Filter(Map(f, xs), q) == Map(f, Filter(xs, p))
  {
    if xs != [] {
      var init, last := xs[..|xs| - 1], xs[|xs| - 1];
      FilterOfMap(f, init, p, q);
      assert Map(f, xs)[..|xs| - 1] == Map(f, init);
    }
  }

  lemma SomeElement<T>(xs: seq<T>)
    ensures xs == [] || xs[0] in xs
  {
  }

  // ---------------------------------------------------------------- mapping a permutation

  function Map<T, U>(f: T -> U, xs: seq<T>): (ys: seq<U>)
    ensures |ys| == |xs| && forall i | 0 <= i < |xs| :: ys[i] == f(xs[i])
  {
    seq(|xs|, i requires 0 <= i < |xs| => f(xs[i]))
  }

  function Without<T>(xs: seq<T>, i: nat): seq<T>
    requires i < |xs|
  {
    xs[..i] + xs[i + 1..]
  }

  lemma RemoveOne<T>(xs: seq<T>, i: nat)
    requires i < |xs|
    ensures |Without(xs, i)| < |xs| && multiset(Without(xs, i)) == multiset(xs) - multiset{xs[i]}
  {
    assert xs == xs[..i] + [xs[i]] + xs[i + 1..];
  }

  lemma RemoveMapped<T, U>(f: T -> U, xs: seq<T>, i: nat)
    requires i < |xs|
    ensures multiset(Map(f, xs)) == multiset(Map(f, Without(xs, i))) + multiset{f(xs[i])}
  {
    var ys := Map(f, xs);
    assert ys == ys[..i] + [ys[i]] + ys[i + 1..];
    assert Map(f, Without(xs, i)) == ys[..i] + ys[i + 1..];
  }

  /** Mapping a permutation gives a permutation. */
  lemma {:induction false} MapOfPermutation<T, U>(f: T -> U, a: seq<T>, b: seq<T>)
    requires multiset(a) == multiset(b)
    ensures multiset(Map(f, a)) == multiset(Map(f, b))
    decreases |a|
  {
    hide Map, Without;
    assert |a| == |multiset(a)| && |b| == |multiset(b)|;
    if a != [] {
      assert a[0] in multiset(b);
      var i :| 0 <= i < |b| && b[i] == a[0];
      RemoveOne(a, 0);
      RemoveOne(b, i);
      RemoveMapped(f, a, 0);
      RemoveMapped(f, b, i);
      MapOfPermutation(f, Without(a, 0), Without(b, i));
    }
  }
}
