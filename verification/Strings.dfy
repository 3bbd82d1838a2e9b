/** Ordering, sorting and joining of strings, as `Array.prototype.sort` and `join` do them. */
module Strings {
  import opened Sorting

  /** Lexicographic order on code units. */
  predicate Le(a: string, b: string) {
    a == [] || (b != [] && (a[0] < b[0] || (a[0] == b[0] && Le(a[1..], b[1..]))))
  }

  lemma {:induction false} LeTotal(a: string, b: string)
    ensures Le(a, b) || Le(b, a)
  {
    if a != [] && b != [] && a[0] == b[0] {
      LeTotal(a[1..], b[1..]);
    }
  }

  lemma {:induction false} LeAntisymmetric(a: string, b: string)
    requires Le(a, b) && Le(b, a)
    ensures a == b
  {
    if a != [] && b != [] {
      LeAntisymmetric(a[1..], b[1..]);
      assert a == [a[0]] + a[1..] && b == [b[0]] + b[1..];
    }
  }

  lemma {:induction false} LeTransitive(a: string, b: string, c: string)
    requires Le(a, b) && Le(b, c)
    ensures Le(a, c)
  {
    if a != [] && a[0] == b[0] == c[0] {
      LeTransitive(a[1..], b[1..], c[1..]);
    }
  }

  lemma LeIsPreorder()
    ensures TotalPreorder(Le)
  {
    forall a: string, b: string ensures Le(a, b) || Le(b, a) {
      LeTotal(a, b);
    }
    forall a: string, b: string, c: string | Le(a, b) && Le(b, c) ensures Le(a, c) {
      LeTransitive(a, b, c);
    }
  }

  predicate Sorted(ss: seq<string>) {
    forall i, j | 0 <= i < j < |ss| :: Le(ss[i], ss[j])
  }

  /** `sort()` without a comparison. */
  function Sort(ss: seq<string>): seq<string> { SortBy(ss, Le) }

  lemma SortIsSorted(ss: seq<string>)
    ensures Sorted(Sort(ss)) && multiset(Sort(ss)) == multiset(ss)
  {
    LeIsPreorder();
    SortSorts(ss, Le);
    SortKeepsElements(ss, Le);
  }

  /** A sorted list is determined by its elements. */
  lemma {:induction false} SortedIsUnique(a: seq<string>, b: seq<string>)
    requires Sorted(a) && Sorted(b) && multiset(a) == multiset(b)
    ensures a == b
  {
    hide Le;
    assert |a| == |multiset(a)| && |b| == |multiset(b)|;
    if a != [] {
      SameHead(a, b);
      TailElements(a);
      TailElements(b);
      SortedIsUnique(a[1..], b[1..]);
      assert a == [a[0]] + a[1..] && b == [b[0]] + b[1..];
    }
  }

  lemma TailElements(a: seq<string>)
    requires a != []
    ensures multiset(a[1..]) == multiset(a) - multiset{a[0]}
  {
    assert a == [a[0]] + a[1..];
  }

  lemma SameHead(a: seq<string>, b: seq<string>)
    requires Sorted(a) && Sorted(b) && multiset(a) == multiset(b) && a != [] && b != []
    ensures a[0] == b[0]
  {
    assert a[0] in multiset(a) && b[0] in multiset(b);
    assert a[0] in b && b[0] in a;
    Least(a, b[0]);
    Least(b, a[0]);
    LeAntisymmetric(a[0], b[0]);
  }

  lemma Least(a: seq<string>, s: string)
    requires Sorted(a) && s in a
    ensures Le(a[0], s)
  {
    LeTotal(s, s);
  }

  // ---------------------------------------------------------------- joining

  function Join(ss: seq<string>, separator: char): string {
    if ss == [] then ""
    else if |ss| == 1 then ss[0]
    else ss[0] + [separator] + Join(ss[1..], separator)
  }

  /** The first separator ends the first part. */
  lemma SplitAtFirst(a: string, b: string, a': string, b': string, separator: char)
    requires separator !in a && separator !in a'
    requires a + [separator] + b == a' + [separator] + b'
    ensures a == a' && b == b'
  {
    var s, s' := a + [separator] + b, a' + [separator] + b';
    assert s[|a|] == separator && s'[|a'|] == separator;
    assert forall i | 0 <= i < |a| :: s[i] == a[i];
    assert forall i | 0 <= i < |a'| :: s'[i] == a'[i];
    assert |a| == |a'|;
    assert a == s[..|a|] && a' == s'[..|a|];
    assert b == s[|a| + 1..] && b' == s'[|a| + 1..];
  }

  /** The part has a mark, and none behind a separator. */
  predicate Marked(part: string, separator: char, mark: char) {
    && mark in part
    && forall i, j | 0 <= i < j < |part| :: !(part[i] == separator && part[j] == mark)
  }

  lemma JoinStarts(ss: seq<string>, separator: char)
    requires ss != []
    ensures |ss[0]| <= |Join(ss, separator)| && Join(ss, separator)[..|ss[0]|] == ss[0]
    ensures |ss| == 1 ==> Join(ss, separator) == ss[0]
    ensures |ss| > 1 ==> Join(ss, separator) == ss[0] + [separator] + Join(ss[1..], separator)
    ensures |ss| > 1 ==>
              && |ss[0]| + 1 + |ss[1]| <= |Join(ss, separator)| && Join(ss, separator)[|ss[0]|] == separator
              && Join(ss, separator)[|ss[0]| + 1..|ss[0]| + 1 + |ss[1]|] == ss[1]
  {
    if |ss| > 1 {
      var rest := Join(ss[1..], separator);
      assert rest[..|ss[1]|] == ss[1];
      assert Join(ss, separator)[|ss[0]| + 1..] == rest;
    }
  }

  /** Of a text that goes on behind `s` with a separator and `next`, a longer first part would have a mark
      behind a separator, or end in `next`, at a separator before a mark. */
  lemma LongerPartIsNotMarked(joined: string, s: string, next: string, t: string, separator: char, mark: char)
    requires separator != mark && |s| < |t| <= |joined| && |s| + 1 + |next| <= |joined|
    requires joined[|s|] == separator && joined[|s| + 1..|s| + 1 + |next|] == next
    requires joined[..|t|] == t && (|t| < |joined| ==> joined[|t|] == separator)
    ensures !Marked(t, separator, mark) || !Marked(next, separator, mark)
  {
    if k :| 0 <= k < |next| && next[k] == mark {
      assert joined[|s| + 1 + k] == mark && t[|s|] == separator;
      if |s| + 1 + k < |t| {
        assert t[|s| + 1 + k] == mark;
      } else {
        assert next[|t| - |s| - 1] == joined[|t|];
      }
    }
  }

  lemma FirstPartIsNotShorter(ss: seq<string>, ts: seq<string>, separator: char, mark: char)
    requires separator != mark && ss != [] && ts != []
    requires forall s | s in ss :: Marked(s, separator, mark)
    requires forall t | t in ts :: Marked(t, separator, mark)
    requires Join(ss, separator) == Join(ts, separator)
    ensures |ss[0]| >= |ts[0]|
  {
    hide Join, Marked;
    var joined := Join(ss, separator);
    JoinStarts(ss, separator);
    JoinStarts(ts, separator);
    if |ss[0]| < |ts[0]| {
      assert ss[1] in ss && ts[0] in ts;
      LongerPartIsNotMarked(joined, ss[0], ss[1], ts[0], separator, mark);
    }
  }

  /** Joining marked parts loses nothing. */
  lemma {:induction false} JoinInjective(ss: seq<string>, ts: seq<string>, separator: char, mark: char)
    requires separator != mark
    requires forall s | s in ss :: Marked(s, separator, mark)
    requires forall t | t in ts :: Marked(t, separator, mark)
    requires Join(ss, separator) == Join(ts, separator)
    ensures ss == ts
  {
    hide Marked, Join;
    if ss == [] || ts == [] {
      NonEmptyJoin(ss, separator, mark);
      NonEmptyJoin(ts, separator, mark);
    } else {
      FirstPartIsNotShorter(ss, ts, separator, mark);
      FirstPartIsNotShorter(ts, ss, separator, mark);
      JoinStarts(ss, separator);
      JoinStarts(ts, separator);
      assert ss[0] == ts[0];
      if |ss| == 1 || |ts| == 1 {
        assert |ss| == 1 && |ts| == 1;
      } else {
        assert Join(ss[1..], separator) == Join(ss, separator)[|ss[0]| + 1..] == Join(ts[1..], separator);
        assert forall s | s in ss[1..] :: s in ss;
        assert forall t | t in ts[1..] :: t in ts;
        JoinInjective(ss[1..], ts[1..], separator, mark);
        assert ss == [ss[0]] + ss[1..] && ts == [ts[0]] + ts[1..];
      }
    }
  }

  lemma NonEmptyJoin(ss: seq<string>, separator: char, mark: char)
    requires forall s | s in ss :: Marked(s, separator, mark)
    ensures Join(ss, separator) != [] <==> ss != []
  {
    if ss != [] {
      assert Marked(ss[0], separator, mark) by {
        assert ss[0] in ss;
      }
    }
  }
}
