/** The seeded Fisher-Yates shuffle (`src/lib/shuffle.ts`). */
module Shuffle {
  import opened Words
  import opened Hashing
  import opened Sequences

  /** In-range choices for the last `|choices|` steps of the loop: `m`, counted down, is the
      exclusive bound of each. */
  predicate InRange(choices: seq<nat>) {
    forall k | 0 <= k < |choices| :: choices[k] < |choices| - k
  }

  /** The loop, given the indices it draws: `m` starts at `|choices|`. */
  function Arrange<T>(xs: seq<T>, choices: seq<nat>): (ys: seq<T>)
    requires |choices| <= |xs| && InRange(choices)
    ensures |ys| == |xs|
    decreases |choices|
  {
    if choices == [] then xs
    else
      var m, i := |choices| - 1, choices[0];
      assert forall k | 0 <= k < m :: choices[1..][k] == choices[k + 1];
      Arrange(xs[m := xs[i]][i := xs[m]], choices[1..])
  }

  lemma MulBelow(word: Word, m: nat)
    requires m > 0
    ensures m * word < m * TWO_32
  {
  }

  /** `Math.floor(random() * m)` for the draw `word`. */
  function Index(word: Word, m: nat): (i: nat)
    requires m > 0
    ensures i < m
  {
    ProductIsTimes(m, word);
    MulBelow(word, m);
    Product(m, word) / TWO_32
  }

  /** The index is the floor of `m` times the fraction `word / 2^32`. */
  lemma IndexIsFloor(word: Word, m: nat)
    requires m > 0
    ensures Index(word, m) * TWO_32 <= m * word < (Index(word, m) + 1) * TWO_32
  {
    ProductIsTimes(m, word);
  }

  /** The indices drawn by the loop when its draws are `words`. */
  function Choices(words: seq<Word>): (choices: seq<nat>)
    ensures |choices| == |words| && InRange(choices)
  {
    if words == [] then [] else [Index(words[0], |words|)] + Choices(words[1..])
  }

  /** The next `n` draws of a generator whose counter is `a`. */
  function Draws(a: nat, n: nat): (words: seq<Word>)
    ensures |words| == n
    decreases n
  {
    hide Draw, Advance;
    if n == 0 then [] else [Draw(a)] + Draws(Advance(a), n - 1)
  }

  lemma {:induction false} CounterAfter(a: nat, m: nat)
    ensures Counter(Advance(a), m) == Counter(a, m + 1)
  {
    if m != 0 {
      CounterAfter(a, m - 1);
    }
  }

  // ---------------------------------------------------------------- the arrangements reached

  function Swapped<T>(xs: seq<T>, m: nat, i: nat): (ys: seq<T>)
    requires m < |xs| && i < |xs|
    ensures |ys| == |xs|
  {
    xs[m := xs[i]][i := xs[m]]
  }

  lemma SwapKeepsElements<T>(xs: seq<T>, m: nat, i: nat)
    requires m < |xs| && i < |xs|
    ensures multiset(Swapped(xs, m, i)) == multiset(xs)
  {
  }

  lemma {:induction false} ArrangeStep<T>(xs: seq<T>, choices: seq<nat>)
    requires 0 < |choices| <= |xs| && InRange(choices)
    ensures InRange(choices[1..]) && choices[0] < |choices|
    ensures Arrange(xs, choices) == Arrange(Swapped(xs, |choices| - 1, choices[0]), choices[1..])
  {
    assert forall k | 0 <= k < |choices| - 1 :: choices[1..][k] == choices[k + 1];
  }

  /** The loop never touches what lies at or above `m` again. */
  lemma {:induction false} ArrangeKeepsTail<T>(xs: seq<T>, choices: seq<nat>)
    requires |choices| <= |xs| && InRange(choices)
    ensures Arrange(xs, choices)[|choices|..] == xs[|choices|..]
    decreases |choices|
  {
    if choices != [] {
      ArrangeStep(xs, choices);
      ArrangeKeepsTail(Swapped(xs, |choices| - 1, choices[0]), choices[1..]);
    }
  }

  /** The element placed by the first step. */
  lemma FirstPlaced<T>(xs: seq<T>, choices: seq<nat>)
    requires 0 < |choices| <= |xs| && InRange(choices)
    ensures choices[0] < |choices|
    ensures Arrange(xs, choices)[|choices| - 1] == xs[choices[0]]
  {
    var m, ys := |choices| - 1, Swapped(xs, |choices| - 1, choices[0]);
    ArrangeStep(xs, choices);
    ArrangeKeepsTail(ys, choices[1..]);
    assert Arrange(xs, choices)[m] == Arrange(xs, choices)[m..][0] == ys[m..][0];
  }

  /** The result is a permutation of the input. */
  lemma {:induction false} ArrangeIsPermutation<T>(xs: seq<T>, choices: seq<nat>)
    requires |choices| <= |xs| && InRange(choices)
    ensures multiset(Arrange(xs, choices)) == multiset(xs)
    decreases |choices|
  {
    if choices != [] {
      ArrangeStep(xs, choices);
      SwapKeepsElements(xs, |choices| - 1, choices[0]);
      ArrangeIsPermutation(Swapped(xs, |choices| - 1, choices[0]), choices[1..]);
    }
  }

  /** On distinct elements, different choices give different arrangements. */
  lemma {:induction false} ArrangeIsInjective<T>(xs: seq<T>, choices: seq<nat>, choices': seq<nat>)
    requires |choices| == |choices'| <= |xs| && InRange(choices) && InRange(choices')
    requires Distinct(xs)
    requires Arrange(xs, choices) == Arrange(xs, choices')
    ensures choices == choices'
    decreases |choices|
  {
    if choices != [] {
      FirstPlaced(xs, choices);
      FirstPlaced(xs, choices');
      assert choices[0] == choices'[0];
      ArrangeStep(xs, choices);
      ArrangeStep(xs, choices');
      ArrangeIsInjective(Swapped(xs, |choices| - 1, choices[0]), choices[1..], choices'[1..]);
      assert choices == [choices[0]] + choices[1..];
      assert choices' == [choices'[0]] + choices'[1..];
    }
  }

  /** Every permutation that agrees with `xs` from `m` on is reached by `m` in-range choices. */
  lemma {:induction false} ArrangeIsSurjective<T>(xs: seq<T>, ys: seq<T>, m: nat) returns (choices: seq<nat>)
    requires m <= |xs| == |ys| && xs[m..] == ys[m..]
    requires multiset(xs) == multiset(ys)
    ensures |choices| == m && InRange(choices)
    ensures Arrange(xs, choices) == ys
    decreases m
  {
    if m == 0 {
      choices := [];
      assert xs[0..] == xs && ys[0..] == ys;
    } else {
      var i := Locate(xs, ys, m);
      var next := Swapped(xs, m - 1, i);
      SwapKeepsElements(xs, m - 1, i);
      var rest := ArrangeIsSurjective(next, ys, m - 1);
      choices := [i] + rest;
      assert choices[1..] == rest;
      ArrangeStep(xs, choices);
    }
  }

  /** The choice that puts `ys[m - 1]` in its place. */
  lemma Locate<T>(xs: seq<T>, ys: seq<T>, m: nat) returns (i: nat)
    requires 0 < m <= |xs| == |ys| && xs[m..] == ys[m..]
    requires multiset(xs) == multiset(ys)
    ensures i < m && Swapped(xs, m - 1, i)[m - 1..] == ys[m - 1..]
  {
    PrefixesMatch(xs, ys, m);
    assert ys[m - 1] == ys[..m][m - 1] && ys[m - 1] in multiset(ys[..m]);
    assert ys[m - 1] in xs[..m];
    i :| 0 <= i < m && xs[..m][i] == ys[m - 1];
    var next := Swapped(xs, m - 1, i);
    assert next[m..] == xs[m..];
    assert next[m - 1..] == [next[m - 1]] + next[m..];
    assert ys[m - 1..] == [ys[m - 1]] + ys[m..];
  }

  lemma PrefixesMatch<T>(xs: seq<T>, ys: seq<T>, m: nat)
    requires m <= |xs| == |ys| && xs[m..] == ys[m..]
    requires multiset(xs) == multiset(ys)
    ensures multiset(xs[..m]) == multiset(ys[..m])
  {
    assert xs == xs[..m] + xs[m..] && ys == ys[..m] + ys[m..];
    assert multiset(xs) == multiset(xs[..m]) + multiset(xs[m..]);
    assert multiset(ys) == multiset(ys[..m]) + multiset(ys[m..]);
    assert multiset(xs[..m]) == multiset(xs) - multiset(xs[m..]);
    assert multiset(ys[..m]) == multiset(ys) - multiset(ys[m..]);
  }

  /** A full shuffle of distinct elements is a bijection between in-range choices and permutations. */
  lemma ShuffleIsBijection<T>(xs: seq<T>, ys: seq<T>)
    requires Distinct(xs)
    ensures multiset(ys) == multiset(xs) <==>
            exists choices: seq<nat> :: |choices| == |xs| && InRange(choices) && Arrange(xs, choices) == ys
    ensures forall c: seq<nat>, d: seq<nat> ::
              |c| == |d| == |xs| && InRange(c) && InRange(d) && Arrange(xs, c) == ys && Arrange(xs, d) == ys ==> c == d
  {
    if multiset(ys) == multiset(xs) {
      assert |ys| == |multiset(ys)| == |multiset(xs)| == |xs|;
      var choices := ArrangeIsSurjective(xs, ys, |xs|);
    }
    forall c: seq<nat> | |c| == |xs| && InRange(c) && Arrange(xs, c) == ys
      ensures multiset(ys) == multiset(xs)
    {
      ArrangeIsPermutation(xs, c);
    }
    forall c: seq<nat>, d: seq<nat> |
        |c| == |d| == |xs| && InRange(c) && InRange(d) && Arrange(xs, c) == ys && Arrange(xs, d) == ys
      ensures c == d
    {
      ArrangeIsInjective(xs, c, d);
    }
  }

  // ---------------------------------------------------------------- the loop

  /** One step of the arrangement takes the next draw and swaps. */
  lemma DrawnStep<T>(xs: seq<T>, a: nat, m: nat)
    requires m < |xs|
    ensures var i := Index(Draw(a), m + 1);
            Arrange(xs, Choices(Draws(a, m + 1))) ==
            Arrange(xs[m := xs[i]][i := xs[m]], Choices(Draws(Advance(a), m)))
  {
    hide Draw, Advance, Index;
    assert Draws(a, m + 1)[1..] == Draws(Advance(a), m);
    assert Choices(Draws(a, m + 1))[1..] == Choices(Draws(Advance(a), m));
  }

  lemma ArrangedAlready<T>(xs: seq<T>, a: nat)
    ensures Arrange(xs, Choices(Draws(a, 0))) == xs
  {
  }

  class SeededShuffle {
    const random: Mulberry32

    constructor (seed: JsString)
      ensures fresh(random) && random.a == Seed(seed, 1)
    {
      hide JsSeed, JsOutput, Output;
      var hash := new Xmur3(seed);
      var first := hash.Next();
      random := new Mulberry32(first);
    }

    method Shuffle<T>(xs: array<T>) returns (shuffled: array<T>)
      modifies random
      ensures fresh(shuffled)
      ensures shuffled[..] == Arrange(xs[..], Choices(Draws(old(random.a), xs.Length)))
      ensures multiset(shuffled[..]) == multiset(xs[..])
      ensures random.a == Counter(old(random.a), xs.Length)
    {
      hide Draw, Advance, Index, Arrange, Choices, Draws, JsDraw;
      shuffled := new T[xs.Length](i requires 0 <= i < xs.Length reads xs => xs[i]);
      assert shuffled[..] == xs[..];
      var m := shuffled.Length;
      while m != 0
        invariant 0 <= m <= shuffled.Length
        invariant random.a == Counter(old(random.a), shuffled.Length - m)
        invariant Arrange(shuffled[..], Choices(Draws(random.a, m))) ==
                  Arrange(xs[..], Choices(Draws(old(random.a), xs.Length)))
      {
        ghost var before, a := shuffled[..], random.a;
        var word := random.Next();
        var i := Index(word, m);
        m := m - 1;
        var t := shuffled[m];
        shuffled[m] := shuffled[i];
        shuffled[i] := t;
        assert shuffled[..] == before[m := before[i]][i := before[m]];
        DrawnStep(before, a, m);
      }
      ArrangedAlready(shuffled[..], random.a);
      ArrangeIsPermutation(xs[..], Choices(Draws(old(random.a), xs.Length)));
    }
  }
}
