/** The keys of the batching loader and the string their parameters are compared by
    (`src/lib/loaders/batchLoader.ts`). */
module Params {
  import opened Sorting
  import opened Strings

  type Param = (string, string)

  /** A key object: its id and its other properties in property order. */
  datatype Key = Key(id: string, params: seq<Param>)

  /** Objects have no property twice, and `id` is set apart. */
  predicate IsObject(params: seq<Param>) {
    forall i, j | 0 <= i < j < |params| :: params[i].0 != params[j].0
  }

  /** The properties as a dictionary: what the backend sees. */
  function Dictionary(params: seq<Param>): map<string, string> {
    if params == [] then map[] else Dictionary(params[..|params| - 1])[params[|params| - 1].0 := params[|params| - 1].1]
  }

  function Entry(p: Param): string { p.0 + "=" + p.1 }

  function Entries(params: seq<Param>): seq<string> { Map(Entry, params) }

  /** `serializeParams`. */
  function Serialize(key: Key): string {
    Join(Sort(Entries(key.params)), '&')
  }

  /** Names free of `=` and `&`. */
  predicate CleanNames(params: seq<Param>) {
    forall i | 0 <= i < |params| :: '=' !in params[i].0 && '&' !in params[i].0
  }

  /** No `&` with a `=` somewhere behind it. */
  predicate Tame(value: string) {
    forall i, j | 0 <= i < j < |value| :: !(value[i] == '&' && value[j] == '=')
  }

  predicate Plain(params: seq<Param>) {
    CleanNames(params) && forall i | 0 <= i < |params| :: Tame(params[i].1)
  }

  ghost predicate Has(d: map<string, string>, p: Param) {
    p.0 in d && d[p.0] == p.1
  }

  lemma {:induction false} DictionaryIs(params: seq<Param>)
    requires IsObject(params)
    ensures forall p: Param :: Has(Dictionary(params), p) <==> p in params
  {
    if params != [] {
      var init, last := params[..|params| - 1], params[|params| - 1];
      assert forall i | 0 <= i < |init| :: params[i].0 != params[|params| - 1].0;
      DictionaryIs(init);
      assert params == init + [last];
    }
  }

  /** An object holds each of its properties once. */
  lemma {:induction false} OncePerProperty(params: seq<Param>, p: Param)
    requires IsObject(params)
    ensures multiset(params)[p] == if p in params then 1 else 0
  {
    if params != [] {
      assert params == [params[0]] + params[1..];
      assert forall q | q in params[1..] :: q.0 != params[0].0;
      OncePerProperty(params[1..], p);
    }
  }

  lemma SamePropertiesSameMultiset(a: seq<Param>, b: seq<Param>)
    requires IsObject(a) && IsObject(b)
    requires forall p: Param :: p in a <==> p in b
    ensures multiset(a) == multiset(b)
  {
    forall p: Param ensures multiset(a)[p] == multiset(b)[p] {
      OncePerProperty(a, p);
      OncePerProperty(b, p);
    }
  }

  lemma SameDictionary(a: seq<Param>, b: seq<Param>)
    requires IsObject(a) && IsObject(b)
    ensures Dictionary(a) == Dictionary(b) <==> forall p: Param :: p in a <==> p in b
  {
    DictionaryIs(a);
    DictionaryIs(b);
    if forall p: Param :: p in a <==> p in b {
      SameMap(Dictionary(a), Dictionary(b));
    }
  }

  lemma SameMap(d: map<string, string>, e: map<string, string>)
    requires forall p: Param :: Has(d, p) <==> Has(e, p)
    ensures d == e
  {
    forall n: string ensures n in d <==> n in e {
      if n in d {
        assert Has(d, (n, d[n]));
      }
      if n in e {
        assert Has(e, (n, e[n]));
      }
    }
    forall n | n in d ensures d[n] == e[n] {
      assert Has(d, (n, d[n]));
    }
  }

  /** The entries of plain properties determine the properties. */
  lemma EntriesDetermine(a: seq<Param>, b: seq<Param>)
    requires CleanNames(a) && CleanNames(b)
    requires multiset(Entries(a)) == multiset(Entries(b))
    ensures forall p | p in a :: p in b
  {
    forall p | p in a ensures p in b {
      var i :| 0 <= i < |a| && a[i] == p;
      assert Entries(a)[i] in multiset(Entries(a));
      assert Entry(p) in Entries(b);
      var j :| 0 <= j < |b| && Entries(b)[j] == Entry(p);
      EntryDetermines(p, b[j]);
    }
  }

  lemma EntryDetermines(p: Param, q: Param)
    requires '=' !in p.0 && '=' !in q.0 && Entry(p) == Entry(q)
    ensures p == q
  {
    SplitAtFirst(p.0, p.1, q.0, q.1, '=');
  }

  /** Canonical: the property order does not matter, whatever the names and values. */
  lemma SerializeIgnoresOrder(a: Key, b: Key)
    requires IsObject(a.params) && IsObject(b.params)
    requires Dictionary(a.params) == Dictionary(b.params)
    ensures Serialize(a) == Serialize(b)
  {
    SameDictionary(a.params, b.params);
    SamePropertiesSameMultiset(a.params, b.params);
    MapOfPermutation(Entry, a.params, b.params);
    SortIsSorted(Entries(a.params));
    SortIsSorted(Entries(b.params));
    SortedIsUnique(Sort(Entries(a.params)), Sort(Entries(b.params)));
  }

  /** Canonical and injective: plain keys share a group exactly when their parameters are the same
      dictionary. */
  lemma SerializeIsCanonical(a: Key, b: Key)
    requires IsObject(a.params) && IsObject(b.params) && Plain(a.params) && Plain(b.params)
    ensures Serialize(a) == Serialize(b) <==> Dictionary(a.params) == Dictionary(b.params)
  {
    if Dictionary(a.params) == Dictionary(b.params) {
      SerializeIgnoresOrder(a, b);
    }
    if Serialize(a) == Serialize(b) {
      SortedEntriesAreMarked(a.params);
      SortedEntriesAreMarked(b.params);
      JoinInjective(Sort(Entries(a.params)), Sort(Entries(b.params)), '&', '=');
      SortIsSorted(Entries(a.params));
      SortIsSorted(Entries(b.params));
      EntriesDetermine(a.params, b.params);
      EntriesDetermine(b.params, a.params);
      SameDictionary(a.params, b.params);
    }
  }

  lemma SortedEntriesAreMarked(params: seq<Param>)
    requires Plain(params)
    ensures forall e | e in Sort(Entries(params)) :: Marked(e, '&', '=')
  {
    SortIsSorted(Entries(params));
    forall e | e in Sort(Entries(params)) ensures Marked(e, '&', '=') {
      assert e in multiset(Sort(Entries(params)));
      assert e in Entries(params);
      var i :| 0 <= i < |params| && Entries(params)[i] == e;
      EntryIsMarked(params[i]);
    }
  }

  lemma EntryIsMarked(p: Param)
    requires '=' !in p.0 && '&' !in p.0
    ensures '=' in Entry(p)
    ensures Marked(Entry(p), '&', '=') <==> Tame(p.1)
  {
    var e, n := Entry(p), |p.0|;
    assert e[n] == '=' && e[n + 1..] == p.1;
    assert forall i | 0 <= i < n :: e[i] == p.0[i];
    if Tame(p.1) {
      forall i, j | 0 <= i < j < |e| && e[i] == '&' ensures e[j] != '=' {
        assert p.1[i - n - 1] == e[i] && p.1[j - n - 1] == e[j];
      }
    }
    if Marked(e, '&', '=') {
      forall i, j | 0 <= i < j < |p.1| ensures !(p.1[i] == '&' && p.1[j] == '=') {
        assert e[n + 1 + i] == p.1[i] && e[n + 1 + j] == p.1[j];
      }
    }
  }

  lemma SortPair(x: string, y: string)
    ensures Sort([x]) == [x]
    ensures Le(x, y) ==> Sort([x, y]) == [x, y]
  {
    assert [x][..0] == [] && [x, y][..1] == [x];
    assert SortBy([], Le) == [];
    assert SortBy([x], Le) == InsertLast([], x, Le) == [x];
    assert SortBy([x, y], Le) == InsertLast([x], y, Le);
    assert [x] + [y] == [x, y];
  }

  /** Different in one entry, different as dictionaries. */
  lemma DictionariesDiffer(a: seq<Param>, b: seq<Param>)
    requires IsObject(a) && IsObject(b) && a != [] && a[0] !in b
    ensures Dictionary(a) != Dictionary(b)
  {
    hide Dictionary;
    SameDictionary(a, b);
    assert a[0] in a;
  }

  /** A parameter's value is never confused, whatever its name and whatever the other key's parameters, if
      and only if it is tame. */
  lemma ValueIsUnconfusedExactly(value: string)
    ensures (forall n: string, b: seq<Param> |
               CleanNames([(n, value)]) && IsObject(b) && CleanNames(b)
               && Serialize(Key("", [(n, value)])) == Serialize(Key("", b)) ::
               Dictionary([(n, value)]) == Dictionary(b))
            <==> Tame(value)
  {
    hide Serialize, Dictionary;
    if Tame(value) {
      forall n: string, b: seq<Param> |
          CleanNames([(n, value)]) && IsObject(b) && CleanNames(b)
          && Serialize(Key("", [(n, value)])) == Serialize(Key("", b))
        ensures Dictionary([(n, value)]) == Dictionary(b)
      {
        TameValueDetermines(n, value, b);
      }
    } else {
      var i, j :| 0 <= i < j < |value| && value[i] == '&' && value[j] == '=';
      i, j := Closest(value, i, j);
      var name := Zeros(j - i);
      WildValueConfuses(value, i, j);
      assert CleanNames([(name, value)]);
      var b := [(name, value[..i]), (value[i + 1..j], value[j + 1..])];
      assert IsObject(b) && CleanNames(b);
    }
  }

  /** A tame value is serialized to one entry, and several entries to none such. */
  lemma TameValueDetermines(n: string, value: string, b: seq<Param>)
    requires CleanNames([(n, value)]) && IsObject(b) && CleanNames(b) && Tame(value)
    requires Serialize(Key("", [(n, value)])) == Serialize(Key("", b))
    ensures b == [(n, value)]
  {
    hide Marked, Serialize, Entry;
    var p := (n, value);
    assert p == [p][0];
    SerializeOne(p);
    EntryIsMarked(p);
    if b == [] {
      SerializeNone();
    } else if |b| == 1 {
      SerializeOne(b[0]);
      assert b == [b[0]];
      EntryDetermines(p, b[0]);
    } else {
      SerializeMany(b);
    }
  }

  lemma SerializeNone()
    ensures Serialize(Key("", [])) == ""
  {
    assert Entries([]) == [];
  }

  /** Only keys without parameters serialize to nothing. */
  lemma SerializedIsEmpty(key: Key)
    ensures Serialize(key) == "" <==> key.params == []
  {
    hide SortBy, Join;
    var es := Sort(Entries(key.params));
    SortIsSorted(Entries(key.params));
    assert |es| == |multiset(es)| == |key.params|;
    if key.params == [] {
      assert key == Key(key.id, []) && es == [];
      SerializeNone();
    } else {
      JoinStarts(es, '&');
      assert es[0] in multiset(es);
      assert es[0] in Entries(key.params);
    }
  }

  lemma SerializeOne(p: Param)
    ensures Serialize(Key("", [p])) == Entry(p)
  {
    assert Entries([p]) == [Entry(p)];
    SortPair(Entry(p), Entry(p));
  }

  lemma SerializeTwo(p: Param, q: Param)
    requires Le(Entry(p), Entry(q))
    ensures Serialize(Key("", [p, q])) == Entry(p) + "&" + Entry(q)
  {
    hide SortBy, Le, Entry;
    assert Entries([p, q]) == [Entry(p), Entry(q)];
    SortPair(Entry(p), Entry(q));
    JoinStarts([Entry(p), Entry(q)], '&');
    assert [Entry(p), Entry(q)][1..] == [Entry(q)];
  }

  lemma SerializeMany(b: seq<Param>)
    requires |b| > 1 && CleanNames(b)
    ensures !Marked(Serialize(Key("", b)), '&', '=')
  {
    hide SortBy, Join, Entry;
    var es := Sort(Entries(b));
    SortIsSorted(Entries(b));
    assert |es| == |multiset(es)| == |b|;
    assert es[1] in multiset(es);
    var i :| 0 <= i < |b| && Entries(b)[i] == es[1];
    EntryIsMarked(b[i]);
    ManyAreNotMarked(es);
    assert Serialize(Key("", b)) == Join(es, '&');
  }

  lemma ManyAreNotMarked(es: seq<string>)
    requires |es| > 1 && '=' in es[1]
    ensures !Marked(Join(es, '&'), '&', '=')
  {
    JoinStarts(es, '&');
    var k :| 0 <= k < |es[1]| && es[1][k] == '=';
    var joined := Join(es, '&');
    assert joined[|es[0]|] == '&' && joined[|es[0]| + 1 + k] == '=';
  }

  /** An `&` and the next `=`, with neither in between. */
  lemma {:induction false} Closest(value: string, i: nat, j: nat) returns (i': nat, j': nat)
    requires i < j < |value| && value[i] == '&' && value[j] == '='
    ensures i' < j' < |value| && value[i'] == '&' && value[j'] == '='
    ensures '&' !in value[i' + 1..j'] && '=' !in value[i' + 1..j']
    decreases j - i
  {
    if m :| i < m < j && value[m] == '&' {
      i', j' := Closest(value, m, j);
    } else if m :| i < m < j && value[m] == '=' {
      i', j' := Closest(value, i, m);
    } else {
      i', j' := i, j;
    }
  }

  /** A name that sorts before all names shorter than it. */
  function Zeros(n: nat): string { seq(n, _ => '\0') }

  lemma {:induction false} ZerosComeFirst(name: string, x: string, y: string)
    ensures Le(Zeros(|name| + 1) + x, name + "=" + y)
  {
    var a, b := Zeros(|name| + 1) + x, name + "=" + y;
    assert a[0] == '\0';
    if name != "" {
      ZerosComeFirst(name[1..], x, y);
      assert a[1..] == Zeros(|name|) + x && b[1..] == name[1..] + "=" + y;
    }
  }

  /** A value with `&` and then `=` reads as two parameters. */
  lemma WildValueConfuses(value: string, i: nat, j: nat)
    requires i < j < |value| && value[i] == '&' && value[j] == '='
    ensures var n := Zeros(j - i);
            var a, b := [(n, value)], [(n, value[..i]), (value[i + 1..j], value[j + 1..])];
            Serialize(Key("", a)) == Serialize(Key("", b)) && Dictionary(a) != Dictionary(b)
  {
    hide Dictionary, Serialize, Entry;
    var n, p, r, t := Zeros(j - i), value[..i], value[i + 1..j], value[j + 1..];
    DictionariesDiffer([(n, value)], [(n, p), (r, t)]);
    SplitTwice(value, i, j);
    ZerosComeFirst(r, "=" + p, t);
    assert Entry((n, p)) == n + ("=" + p) && Entry((r, t)) == r + "=" + t by {
      EntryText(n, p);
      EntryText(r, t);
    }
    TwoReadAsOne(n, p, r, t);
  }

  lemma EntryText(n: string, v: string)
    ensures Entry((n, v)) == n + "=" + v == n + ("=" + v)
  {
  }

  /** A parameter whose value goes on like another entry. */
  lemma TwoReadAsOne(n: string, p: string, r: string, t: string)
    requires Le(Entry((n, p)), Entry((r, t)))
    ensures Serialize(Key("", [(n, p + "&" + (r + "=" + t))])) == Serialize(Key("", [(n, p), (r, t)]))
  {
    hide Serialize, Le;
    SerializeOne((n, p + "&" + (r + "=" + t)));
    SerializeTwo((n, p), (r, t));
  }

  lemma SplitTwice(value: string, i: nat, j: nat)
    requires i < j < |value| && value[i] == '&' && value[j] == '='
    ensures value == value[..i] + "&" + (value[i + 1..j] + "=" + value[j + 1..])
  {
    assert value[i..i + 1] == "&" && value[j..j + 1] == "=";
  }

  /** Without plain values, different parameters can serialize alike. */
  lemma SerializeConfusesAmpersands()
    ensures var a, b := Key("x", [("a", "1&b=2")]), Key("y", [("a", "1"), ("b", "2")]);
            Serialize(a) == Serialize(b) && Dictionary(a.params) != Dictionary(b.params)
  {
    hide Dictionary, SortBy, Join;
    DictionariesDiffer([("a", "1&b=2")], [("a", "1"), ("b", "2")]);
    TwoReadAsOne("a", "1", "b", "2");
    assert "1&b=2" == "1" + "&" + ("b" + "=" + "2");
  }

  /** Nor without plain names. */
  lemma SerializeConfusesEqualsSigns()
    ensures var a, b := Key("x", [("a=b", "c")]), Key("y", [("a", "b=c")]);
            Serialize(a) == Serialize(b) && Dictionary(a.params) != Dictionary(b.params)
  {
    hide Dictionary, SortBy;
    var a, b := [("a=b", "c")], [("a", "b=c")];
    DictionariesDiffer(a, b);
    assert Entry(a[0]) == "a=b=c" && Entry(b[0]) == "a=b=c";
    assert Entries(a) == ["a=b=c"] && Entries(b) == ["a=b=c"];
  }
}
