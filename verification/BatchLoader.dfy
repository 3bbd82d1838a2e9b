/** The batch function handed to DataLoader (`src/lib/loaders/batchLoader.ts`): keys are grouped by
    their parameters, each group is fetched in one call, and the reply arrays are reversed and
    popped to hand every key its own entity. */
module BatchLoader {
  import opened Params
  import opened Wrappers

  /** What a backend holds for an id: a value, `null`, or nothing at all. */
  datatype Item = Undefined | Null | Found(value: string)

  // ---------------------------------------------------------------- grouping

  /** The serialized parameters of the keys, each once, in first-seen order. */
  function GroupNames(keys: seq<Key>): (names: seq<string>)
    ensures forall i, j | 0 <= i < j < |names| :: names[i] != names[j]
    ensures forall key | key in keys :: Serialize(key) in names
    ensures forall n | n in names :: exists key :: key in keys && Serialize(key) == n
    ensures keys != [] ==> names != []
  {
    if keys == [] then []
    else
      var init, last := keys[..|keys| - 1], keys[|keys| - 1];
      assert keys == init + [last];
      var names := GroupNames(init);
      if Serialize(last) in names then names else names + [Serialize(last)]
  }

  /** The keys that serialize to `name`, in order. */
  function Group(keys: seq<Key>, name: string): (group: seq<Key>)
    ensures forall key | key in group :: key in keys && Serialize(key) == name
  {
    if keys == [] then []
    else
      Group(keys[..|keys| - 1], name)
      + (if Serialize(keys[|keys| - 1]) == name then [keys[|keys| - 1]] else [])
  }

  /** How many earlier keys share the group of key `i`. */
  function Rank(keys: seq<Key>, i: nat): nat
    requires i < |keys|
  {
    |Group(keys[..i], Serialize(keys[i]))|
  }

  /** Key `i` is the member number `Rank(keys, i)` of its group. */
  lemma {:induction false} RankInGroup(keys: seq<Key>, i: nat)
    requires i < |keys|
    ensures Rank(keys, i) < |Group(keys, Serialize(keys[i]))|
    ensures Group(keys, Serialize(keys[i]))[Rank(keys, i)] == keys[i]
  {
    var init := keys[..|keys| - 1];
    if i == |keys| - 1 {
      assert keys[..i] == init;
    } else {
      RankInGroup(init, i);
      assert init[..i] == keys[..i];
    }
  }

  /** Every member of a group is some key. */
  lemma {:induction false} GroupMemberIsKey(keys: seq<Key>, name: string, r: nat) returns (i: nat)
    requires r < |Group(keys, name)|
    ensures i < |keys| && Serialize(keys[i]) == name && Rank(keys, i) == r
    ensures keys[i] == Group(keys, name)[r]
  {
    var init := keys[..|keys| - 1];
    if r < |Group(init, name)| {
      i := GroupMemberIsKey(init, name, r);
      assert init[..i] == keys[..i];
    } else {
      i := |keys| - 1;
      assert keys[..i] == init;
    }
  }

  function IndexOf(names: seq<string>, name: string): (i: nat)
    requires name in names
    ensures i < |names| && names[i] == name && name !in names[..i]
  {
    if names[0] == name then 0
    else
      assert names == [names[0]] + names[1..];
      var i := IndexOf(names[1..], name);
      assert names[..i + 1] == [names[0]] + names[1..][..i];
      i + 1
  }

  /** lodash's `groupBy(...).entries()`: one entry a name, in first-seen order. */
  function GroupBy(keys: seq<Key>): (entries: seq<(string, seq<Key>)>)
    ensures |entries| == |GroupNames(keys)|
    ensures forall g | 0 <= g < |entries| ::
              entries[g] == (GroupNames(keys)[g], Group(keys, GroupNames(keys)[g]))
  {
    var names := GroupNames(keys);
    seq(|names|, g requires 0 <= g < |names| => (names[g], Group(keys, names[g])))
  }

  method GroupByParams(keys: seq<Key>) returns (names: seq<string>, groups: seq<seq<Key>>)
    ensures names == GroupNames(keys) && |groups| == |names|
    ensures forall g | 0 <= g < |names| :: groups[g] == Group(keys, names[g]) && groups[g] != []
  {
    var entries := GroupBy(keys);
    names, groups := [], [];
    for i := 0 to |entries|
      invariant |names| == |groups| == i
      invariant forall g | 0 <= g < i :: names[g] == entries[g].0 && groups[g] == entries[g].1
    {
      names := names + [entries[i].0];
      groups := groups + [entries[i].1];
    }
    forall g | 0 <= g < |names| ensures groups[g] != [] {
      GroupIsNotEmpty(keys, g);
    }
  }

  lemma GroupIsNotEmpty(keys: seq<Key>, g: nat)
    requires g < |GroupNames(keys)|
    ensures Group(keys, GroupNames(keys)[g]) != []
  {
    var n := GroupNames(keys)[g];
    assert n in GroupNames(keys);
    var key :| key in keys && Serialize(key) == n;
    var i :| 0 <= i < |keys| && keys[i] == key;
    RankInGroup(keys, i);
  }

  // ---------------------------------------------------------------- requests

  datatype Request =
    | Single(id: string)
    | Multiple(params: seq<Param>, ids: seq<string>)

  function Ids(group: seq<Key>): seq<string> {
    seq(|group|, i requires 0 <= i < |group| => group[i].id)
  }

  /** The call made for a group: `flattenedParams` takes the group head's parameters, and a lone
      parameterless key goes to the single loader when there is one. */
  function RequestFor(group: seq<Key>, hasSingle: bool): Request
    requires group != []
  {
    if |group| == 1 && hasSingle && group[0].params == [] then Single(group[0].id)
    else Multiple(group[0].params, Ids(group))
  }

  // ---------------------------------------------------------------- replies

  function Reversed<T>(s: seq<T>): seq<T> {
    seq(|s|, i requires 0 <= i < |s| => s[|s| - 1 - i])
  }

  function Drop<T>(s: seq<T>, n: nat): seq<T> {
    if n <= |s| then s[n..] else []
  }

  function At(s: seq<Item>, i: nat): Item {
    if i < |s| then s[i] else Undefined
  }

  /** A JavaScript array of entities. */
  class JsArray {
    var items: seq<Item>

    constructor (items: seq<Item>)
      ensures this.items == items
    {
      this.items := items;
    }

    method Reverse()
      modifies this
      ensures items == Reversed(old(items))
    {
      items := Reversed(items);
    }

    method Pop() returns (last: Item)
      modifies this
      ensures old(items) == [] ==> items == [] && last == Undefined
      ensures old(items) != [] ==> old(items) == items + [last]
    {
      if items == [] {
        last := Undefined;
      } else {
        last := items[|items| - 1];
        items := items[..|items| - 1];
      }
    }
  }

  /** How a call for a group ends: it rejects, or resolves with an array, or with anything else. */
  datatype Reply = Rejected | List(array_: JsArray) | Bare(item: Item)

  ghost function Arrays(data: seq<Reply>): set<JsArray> {
    set i | 0 <= i < |data| && data[i].List? :: data[i].array_
  }

  ghost function Contents(data: seq<Reply>): (contents: seq<seq<Item>>)
    reads Arrays(data)
    ensures |contents| == |data|
  {
    seq(|data|, i requires 0 <= i < |data| reads Arrays(data) =>
      match data[i]
      case Rejected => []
      case List(a) => a.items
      case Bare(item) => [item])
  }

  /** No two replies are the same array. */
  ghost predicate Unshared(data: seq<Reply>) {
    forall i, j | 0 <= i < j < |data| && data[i].List? && data[j].List? :: data[i].array_ != data[j].array_
  }

  /** What the keys are handed, when the groups' replies hold `contents`: each key takes the entry
      of its group's reply that stands at its own position in the group. */
  function Dealt(keys: seq<Key>, contents: seq<seq<Item>>): (results: seq<Item>)
    requires |contents| == |GroupNames(keys)|
    ensures |results| == |keys|
  {
    var names := GroupNames(keys);
    seq(|keys|, i requires 0 <= i < |keys| =>
      assert keys[i] in keys;
      At(contents[IndexOf(names, Serialize(keys[i]))], Rank(keys, i)))
  }

  lemma PopFromReversed<T>(s: seq<T>, n: nat)
    ensures n < |s| ==> Reversed(Drop(s, n)) == Reversed(Drop(s, n + 1)) + [s[n]]
    ensures |s| <= n ==> Reversed(Drop(s, n)) == [] == Reversed(Drop(s, n + 1))
  {
  }

  datatype Outcome<+T> = Resolved(value: T) | Failed

  /** The batch function, from the moment all groups' calls have ended.  One rejected call rejects
      the whole batch (`Promise.all`). */
  method Deal(keys: seq<Key>, data: seq<Reply>) returns (r: Outcome<seq<Item>>)
    requires |data| == |GroupNames(keys)|
    requires Unshared(data)
    modifies Arrays(data)
    ensures r.Failed? <==> exists g | 0 <= g < |data| :: data[g].Rejected?
    ensures r.Failed? ==> Contents(data) == old(Contents(data))
    ensures r.Resolved? ==> r.value == Dealt(keys, old(Contents(data)))
    ensures r.Resolved? ==> forall g | 0 <= g < |data| && data[g].List? ::
              data[g].array_.items == Reversed(Drop(old(Contents(data)[g]), |Group(keys, GroupNames(keys)[g])|))
  {
    if exists g | 0 <= g < |data| :: data[g].Rejected? {
      return Failed;
    }
    ghost var contents := Contents(data);
    var names, groups := GroupByParams(keys);
    var normalized := Normalize(data);
    var results := PopEach(keys, names, normalized, contents);
    r := Resolved(results);
  }

  /** For every key, pop its group's reversed reply. */
  method PopEach(keys: seq<Key>, names: seq<string>, normalized: seq<JsArray>, ghost contents: seq<seq<Item>>)
      returns (results: seq<Item>)
    requires names == GroupNames(keys) && |normalized| == |contents| == |names|
    requires forall g, h | 0 <= g < h < |normalized| :: normalized[g] != normalized[h]
    requires forall g | 0 <= g < |normalized| :: normalized[g].items == Reversed(contents[g])
    modifies set g | 0 <= g < |normalized| :: normalized[g]
    ensures results == Dealt(keys, contents)
    ensures forall g | 0 <= g < |normalized| ::
              normalized[g].items == Reversed(Drop(contents[g], |Group(keys, names[g])|))
  {
    hide Serialize, GroupNames, Reversed, Drop, Group, Dealt, Rank;
    results := [];
    forall g | 0 <= g < |names|
      ensures Reversed(Drop(contents[g], |Group(keys[..0], names[g])|)) == Reversed(contents[g])
    {
      NothingDropped(keys, names[g], contents[g]);
    }
    for i := 0 to |keys|
      invariant |results| == i
      invariant forall k | 0 <= k < i :: results[k] == Dealt(keys, contents)[k]
      invariant forall g | 0 <= g < |names| ::
                  normalized[g].items == Reversed(Drop(contents[g], |Group(keys[..i], names[g])|))
    {
      var item := PopFor(keys, names, normalized, contents, i);
      results := results + [item];
    }
    assert keys[..|keys|] == keys;
  }

  /** One key's pop. */
  method PopFor(keys: seq<Key>, names: seq<string>, normalized: seq<JsArray>, ghost contents: seq<seq<Item>>, i: nat)
      returns (item: Item)
    requires names == GroupNames(keys) && |normalized| == |contents| == |names| && i < |keys|
    requires forall g, h | 0 <= g < h < |normalized| :: normalized[g] != normalized[h]
    requires forall g | 0 <= g < |names| ::
               normalized[g].items == Reversed(Drop(contents[g], |Group(keys[..i], names[g])|))
    modifies set g | 0 <= g < |normalized| :: normalized[g]
    ensures item == Dealt(keys, contents)[i]
    ensures forall g | 0 <= g < |names| ::
              normalized[g].items == Reversed(Drop(contents[g], |Group(keys[..i + 1], names[g])|))
  {
    hide Serialize, GroupNames, Reversed, Drop, Group;
    assert keys[i] in keys;
    var g := IndexOf(names, Serialize(keys[i]));
    ghost var n := Rank(keys, i);
    PopFromReversed(contents[g], n);
    forall h | 0 <= h < |names|
      ensures |Group(keys[..i + 1], names[h])| == |Group(keys[..i], names[h])| + (if h == g then 1 else 0)
    {
      GroupGrows(keys, i, names[h]);
    }
    item := normalized[g].Pop();
    if n < |contents[g]| {
      SameLast(normalized[g].items, item, Reversed(Drop(contents[g], n + 1)), contents[g][n]);
    }
    assert normalized[g].items == Reversed(Drop(contents[g], n + 1));
  }

  lemma SameLast<T>(s: seq<T>, x: T, t: seq<T>, y: T)
    requires s + [x] == t + [y]
    ensures s == t && x == y
  {
    assert (s + [x])[|s|] == x && (t + [y])[|t|] == y;
    assert (s + [x])[..|s|] == s && (t + [y])[..|t|] == t;
  }

  lemma GroupGrows(keys: seq<Key>, i: nat, name: string)
    requires i < |keys|
    ensures |Group(keys[..i + 1], name)| == |Group(keys[..i], name)| + (if name == Serialize(keys[i]) then 1 else 0)
  {
    hide Serialize;
    assert keys[..i + 1][..i] == keys[..i];
  }

  lemma NothingDropped<T>(keys: seq<Key>, name: string, s: seq<T>)
    ensures Reversed(Drop(s, |Group(keys[..0], name)|)) == Reversed(s)
  {
  }

  /** `Array.isArray(datum) ? datum.reverse() : [datum]`. */
  method NormalizeOne(reply: Reply) returns (a: JsArray)
    requires !reply.Rejected?
    modifies if reply.List? then {reply.array_} else {}
    ensures if reply.List? then a == reply.array_ else fresh(a)
    ensures a.items == Reversed(if reply.List? then old(reply.array_.items) else [reply.item])
  {
    match reply
    case List(array_) =>
      array_.Reverse();
      a := array_;
    case Bare(item) =>
      a := new JsArray([item]);
  }

  /** The replies as reversed arrays. */
  method Normalize(data: seq<Reply>) returns (normalized: seq<JsArray>)
    requires Unshared(data)
    requires forall g | 0 <= g < |data| :: !data[g].Rejected?
    modifies Arrays(data)
    ensures |normalized| == |data|
    ensures forall g | 0 <= g < |data| :: normalized[g].items == Reversed(old(Contents(data)[g]))
    ensures forall g | 0 <= g < |data| ::
              if data[g].List? then normalized[g] == data[g].array_ else fresh(normalized[g])
    ensures forall g, h | 0 <= g < h < |data| :: normalized[g] != normalized[h]
  {
    hide Reversed, Contents;
    ghost var contents := Contents(data);
    ContentsAre(data);
    normalized := [];
    for g := 0 to |data|
      invariant |normalized| == g
      invariant Normalized(data, normalized, contents)
      invariant forall h | 0 <= h < g && !data[h].List? :: fresh(normalized[h])
    {
      var a := NormalizeOne(data[g]);
      normalized := normalized + [a];
    }
  }

  /** What replies hold, one by one. */
  lemma ContentsAre(data: seq<Reply>)
    ensures forall h | 0 <= h < |data| && data[h].List? :: Contents(data)[h] == data[h].array_.items
    ensures forall h | 0 <= h < |data| && data[h].Bare? :: Contents(data)[h] == [data[h].item]
  {
  }

  /** The first replies are reversed, in place or in arrays of their own; the others are as they were. */
  ghost predicate Normalized(data: seq<Reply>, normalized: seq<JsArray>, contents: seq<seq<Item>>)
    requires |normalized| <= |data| == |contents|
    reads normalized, Arrays(data)
  {
    && (forall h | 0 <= h < |normalized| :: normalized[h].items == Reversed(contents[h]))
    && (forall h | 0 <= h < |normalized| && data[h].List? :: normalized[h] == data[h].array_)
    && (forall h, k | 0 <= h < k < |normalized| :: normalized[h] != normalized[k])
    && (forall h | |normalized| <= h < |data| && data[h].List? :: data[h].array_.items == contents[h])
  }

  // ---------------------------------------------------------------- every key gets its own entity

  /** A backend answers for an id and a dictionary of parameters. */
  type Backend = (string, map<string, string>) -> Item

  /** Looking a key up on its own. */
  function Alone(backend: Backend, key: Key): Item {
    backend(key.id, Dictionary(key.params))
  }

  /** The reply of a backend that answers one entry an id, in id order. */
  function ReplyTo(backend: Backend, request: Request): seq<Item> {
    match request
    case Single(id) => [backend(id, map[])]
    case Multiple(params, ids) =>
      seq(|ids|, i requires 0 <= i < |ids| => backend(ids[i], Dictionary(params)))
  }

  /** The replies to all the requests of a batch. */
  function Replies(backend: Backend, keys: seq<Key>, hasSingle: bool): (contents: seq<seq<Item>>)
    ensures |contents| == |GroupNames(keys)|
  {
    var names := GroupNames(keys);
    seq(|names|, g requires 0 <= g < |names| =>
      GroupIsNotEmpty(keys, g);
      ReplyTo(backend, RequestFor(Group(keys, names[g]), hasSingle)))
  }

  /** The deal is right for every key if and only if each group's reply has, at every position of
      the group, the entity of the key at that position. */
  lemma DealtIsRightExactly(lookup: Key -> Item, keys: seq<Key>, contents: seq<seq<Item>>)
    requires |contents| == |GroupNames(keys)|
    ensures (forall i | 0 <= i < |keys| :: Dealt(keys, contents)[i] == lookup(keys[i]))
            <==> forall g, r | 0 <= g < |contents| && 0 <= r < |Group(keys, GroupNames(keys)[g])| ::
                   At(contents[g], r) == lookup(Group(keys, GroupNames(keys)[g])[r])
  {
    var names := GroupNames(keys);
    hide Serialize, GroupNames, Group;
    if forall i | 0 <= i < |keys| :: Dealt(keys, contents)[i] == lookup(keys[i]) {
      forall g, r | 0 <= g < |contents| && 0 <= r < |Group(keys, names[g])|
        ensures At(contents[g], r) == lookup(Group(keys, names[g])[r])
      {
        var i := GroupMemberIsKey(keys, names[g], r);
        assert keys[i] in keys;
        assert IndexOf(names, Serialize(keys[i])) == g;
        assert Dealt(keys, contents)[i] == At(contents[g], r);
      }
    }
    if forall g, r | 0 <= g < |contents| && 0 <= r < |Group(keys, names[g])| ::
        At(contents[g], r) == lookup(Group(keys, names[g])[r]) {
      forall i | 0 <= i < |keys| ensures Dealt(keys, contents)[i] == lookup(keys[i]) {
        assert keys[i] in keys;
        RankInGroup(keys, i);
      }
    }
  }

  /** Every key's parameters are those its group is fetched with. */
  ghost predicate HeadsSpeak(keys: seq<Key>) {
    forall g, r | 0 <= g < |GroupNames(keys)| && 0 <= r < |Group(keys, GroupNames(keys)[g])| ::
      var group := Group(keys, GroupNames(keys)[g]);
      Dictionary(group[r].params) == Dictionary(group[0].params)
  }

  /** The batch answers every key as a lone lookup would. */
  ghost predicate AnswersEachKey(backend: Backend, keys: seq<Key>, hasSingle: bool) {
    forall i | 0 <= i < |keys| ::
      Dealt(keys, Replies(backend, keys, hasSingle))[i] == Alone(backend, keys[i])
  }

  /** What a backend's reply holds for a member of a group. */
  lemma ReplyForMember(backend: Backend, keys: seq<Key>, hasSingle: bool, g: nat, r: nat)
    requires g < |GroupNames(keys)| && r < |Group(keys, GroupNames(keys)[g])|
    ensures var group := Group(keys, GroupNames(keys)[g]);
            At(Replies(backend, keys, hasSingle)[g], r) == backend(group[r].id, Dictionary(group[0].params))
  {
    hide Group, GroupNames;
    GroupIsNotEmpty(keys, g);
  }

  /** With backends that answer one entry an id in id order, the batch answers every key of a list
      as a lone lookup would, whatever the backend, if and only if each group's head speaks for the
      whole group. */
  lemma BatchIsRightExactly(keys: seq<Key>, hasSingle: bool)
    ensures (forall backend: Backend :: AnswersEachKey(backend, keys, hasSingle)) <==> HeadsSpeak(keys)
  {
    if HeadsSpeak(keys) {
      forall backend: Backend ensures AnswersEachKey(backend, keys, hasSingle) {
        GroupsAnswered(backend, keys, hasSingle);
      }
    } else {
      var backend := WrongHeadShows(keys, hasSingle);
      assert !AnswersEachKey(backend, keys, hasSingle);
    }
  }

  /** A group member with other parameters than its head is answered wrongly by a backend that
      looks at them. */
  lemma WrongHeadShows(keys: seq<Key>, hasSingle: bool) returns (backend: Backend)
    requires !HeadsSpeak(keys)
    ensures !AnswersEachKey(backend, keys, hasSingle)
  {
    hide Serialize, Group, GroupNames, Dictionary, Replies;
    var names := GroupNames(keys);
    var g, r :| 0 <= g < |names| && 0 <= r < |Group(keys, names[g])|
      && Dictionary(Group(keys, names[g])[r].params) != Dictionary(Group(keys, names[g])[0].params);
    var wanted := Dictionary(Group(keys, names[g])[r].params);
    backend := (id: string, params: map<string, string>) => if params == wanted then Found("") else Null;
    var i := GroupMemberIsKey(keys, names[g], r);
    ReplyForMember(backend, keys, hasSingle, g, r);
    assert keys[i] in keys;
    assert IndexOf(names, Serialize(keys[i])) == g;
    assert Dealt(keys, Replies(backend, keys, hasSingle))[i] == Null;
    assert Alone(backend, keys[i]) == Found("");
  }

  lemma GroupsAnswered(backend: Backend, keys: seq<Key>, hasSingle: bool)
    requires HeadsSpeak(keys)
    ensures AnswersEachKey(backend, keys, hasSingle)
  {
    var contents := Replies(backend, keys, hasSingle);
    hide Group, GroupNames, Replies, Dealt;
    var lookup := key => Alone(backend, key);
    forall g, r | 0 <= g < |contents| && 0 <= r < |Group(keys, GroupNames(keys)[g])|
      ensures At(contents[g], r) == lookup(Group(keys, GroupNames(keys)[g])[r])
    {
      ReplyForMember(backend, keys, hasSingle, g, r);
    }
    DealtIsRightExactly(lookup, keys, contents);
  }

  /** Plain names and values are enough. */
  lemma PlainKeysAreAnswered(backend: Backend, keys: seq<Key>, hasSingle: bool)
    requires forall key | key in keys :: IsObject(key.params) && Params.Plain(key.params)
    ensures AnswersEachKey(backend, keys, hasSingle)
  {
    hide Serialize, Dictionary;
    forall g, r | 0 <= g < |GroupNames(keys)| && 0 <= r < |Group(keys, GroupNames(keys)[g])|
      ensures var group := Group(keys, GroupNames(keys)[g]);
              Dictionary(group[r].params) == Dictionary(group[0].params)
    {
      var group := Group(keys, GroupNames(keys)[g]);
      assert group[r] in group && group[0] in group;
      SerializeIsCanonical(group[r], group[0]);
    }
    GroupsAnswered(backend, keys, hasSingle);
  }

  // ---------------------------------------------------------------- shared replies

  /** Which reply to an earlier batch, if any, is the very array of each reply to a later one. */
  ghost predicate SharedAs(data1: seq<Reply>, data2: seq<Reply>, shared: seq<Option<nat>>) {
    && |shared| == |data2|
    && forall g | 0 <= g < |data2| :: match shared[g]
         case Some(h) => h < |data1| && data2[g].List? && data1[h] == data2[g]
         case None => data2[g].List? ==> data2[g].array_ !in Arrays(data1)
  }

  /** What a later batch finds in its replies: of an array that an earlier batch was dealt from, what is
      left, in reverse. */
  function LeftBy(keys: seq<Key>, contents1: seq<seq<Item>>, contents2: seq<seq<Item>>, shared: seq<Option<nat>>)
      : (left: seq<seq<Item>>)
    requires |contents1| == |GroupNames(keys)| && |shared| == |contents2|
    requires forall g | 0 <= g < |shared| && shared[g].Some? :: shared[g].value < |contents1|
    ensures |left| == |contents2|
  {
    seq(|contents2|, g requires 0 <= g < |contents2| =>
      match shared[g]
      case Some(h) => Reversed(Drop(contents1[h], |Group(keys, GroupNames(keys)[h])|))
      case None => contents2[g])
  }

  /** Two batches, dealt one after the other from replies of which some are the same arrays, as when the
      two loaders of `createBatchLoaders` make one call of their `multipleLoader` and it hands both the
      promise it remembers. */
  method DealBoth(keys1: seq<Key>, data1: seq<Reply>, keys2: seq<Key>, data2: seq<Reply>,
                  ghost shared: seq<Option<nat>>)
      returns (first: Outcome<seq<Item>>, second: Outcome<seq<Item>>)
    requires |data1| == |GroupNames(keys1)| && |data2| == |GroupNames(keys2)|
    requires Unshared(data1) && Unshared(data2) && SharedAs(data1, data2, shared)
    requires forall g | 0 <= g < |data1| :: !data1[g].Rejected?
    requires forall g | 0 <= g < |data2| :: !data2[g].Rejected?
    modifies Arrays(data1), Arrays(data2)
    ensures first == Resolved(Dealt(keys1, old(Contents(data1))))
    ensures second == Resolved(Dealt(keys2, LeftBy(keys1, old(Contents(data1)), old(Contents(data2)), shared)))
  {
    hide Serialize, GroupNames, Group, Dealt, Reversed, Drop;
    ghost var contents1, contents2 := Contents(data1), Contents(data2);
    first := Deal(keys1, data1);
    forall g | 0 <= g < |data2| ensures Contents(data2)[g] == LeftBy(keys1, contents1, contents2, shared)[g] {
      if shared[g].None? && data2[g].List? {
        assert data2[g].array_.items == contents2[g];
      }
    }
    assert Contents(data2) == LeftBy(keys1, contents1, contents2, shared);
    second := Deal(keys2, data2);
  }

  /** Two batches of one group each: the second gets the tail of the array, last entry first. */
  lemma LeftoversComeLastFirst(keys1: seq<Key>, keys2: seq<Key>, items: seq<Item>, i: nat)
    requires |GroupNames(keys1)| == 1 && |GroupNames(keys2)| == 1 && i < |keys2|
    ensures Dealt(keys2, LeftBy(keys1, [items], [items], [Some(0)]))[i] ==
            if |keys1| + i < |items| then items[|items| - 1 - i] else Undefined
  {
    hide Serialize, GroupNames, Group, Dealt, Reversed, Drop;
    OneGroup(keys1);
    var left := Reversed(Drop(items, |keys1|));
    assert LeftBy(keys1, [items], [items], [Some(0)]) == [left];
    DealtFromOneGroup(keys2, left);
    ReversedDropAt(items, |keys1|, i);
  }

  lemma ReversedDropAt(items: seq<Item>, n: nat, i: nat)
    ensures At(Reversed(Drop(items, n)), i) == if n + i < |items| then items[|items| - 1 - i] else Undefined
  {
  }

  /** The call made for group `g`. */
  function CallFor(keys: seq<Key>, hasSingle: bool, g: nat): Request
    requires g < |GroupNames(keys)|
  {
    GroupIsNotEmpty(keys, g);
    RequestFor(Group(keys, GroupNames(keys)[g]), hasSingle)
  }

  /** The group of a batch for which `multipleLoader` is called like this. */
  ghost function GroupCalledLike(keys: seq<Key>, hasSingle: bool, request: Request): (h: Option<nat>)
    ensures h.Some? ==> h.value < |GroupNames(keys)| && CallFor(keys, hasSingle, h.value) == request
    ensures h.Some? <==>
            request.Multiple? && exists k | 0 <= k < |GroupNames(keys)| :: CallFor(keys, hasSingle, k) == request
  {
    if k :| request.Multiple? && 0 <= k < |GroupNames(keys)| && CallFor(keys, hasSingle, k) == request then Some(k)
    else None
  }

  /** A `multipleLoader` that remembers its calls hands a second batch the arrays of the first for the
      calls they have in common. */
  ghost function CallsInCommon(keys1: seq<Key>, hasSingle1: bool, keys2: seq<Key>, hasSingle2: bool)
      : (shared: seq<Option<nat>>)
    ensures |shared| == |GroupNames(keys2)|
    ensures forall g | 0 <= g < |shared| && shared[g].Some? :: shared[g].value < |GroupNames(keys1)|
  {
    seq(|GroupNames(keys2)|, g requires 0 <= g < |GroupNames(keys2)| =>
      GroupCalledLike(keys1, hasSingle1, CallFor(keys2, hasSingle2, g)))
  }

  /** Both batches answer every key as a lone lookup would. */
  ghost predicate BothAnswer(backend: Backend, keys1: seq<Key>, hasSingle1: bool, keys2: seq<Key>, hasSingle2: bool) {
    && AnswersEachKey(backend, keys1, hasSingle1)
    && var left := LeftBy(keys1, Replies(backend, keys1, hasSingle1), Replies(backend, keys2, hasSingle2),
                          CallsInCommon(keys1, hasSingle1, keys2, hasSingle2));
       forall i | 0 <= i < |keys2| :: Dealt(keys2, left)[i] == Alone(backend, keys2[i])
  }

  /** No call of `multipleLoader` is made for both batches. */
  ghost predicate NoCallInCommon(keys1: seq<Key>, hasSingle1: bool, keys2: seq<Key>, hasSingle2: bool) {
    forall g, h |
        0 <= g < |GroupNames(keys2)| && 0 <= h < |GroupNames(keys1)| && CallFor(keys2, hasSingle2, g).Multiple? ::
      CallFor(keys1, hasSingle1, h) != CallFor(keys2, hasSingle2, g)
  }

  /** With a `multipleLoader` that remembers its calls, two batches are both right, whatever the backend,
      if and only if each is right on its own and they make no call in common. */
  lemma BothBatchesAreRightExactly(keys1: seq<Key>, hasSingle1: bool, keys2: seq<Key>, hasSingle2: bool)
    ensures (forall backend: Backend :: BothAnswer(backend, keys1, hasSingle1, keys2, hasSingle2))
            <==> HeadsSpeak(keys1) && HeadsSpeak(keys2) && NoCallInCommon(keys1, hasSingle1, keys2, hasSingle2)
  {
    hide Serialize, GroupNames, Group, HeadsSpeak, Replies, Dealt, AnswersEachKey, LeftBy, CallsInCommon;
    if !HeadsSpeak(keys1) {
      var backend := WrongHeadShows(keys1, hasSingle1);
      assert !BothAnswer(backend, keys1, hasSingle1, keys2, hasSingle2);
    } else if !NoCallInCommon(keys1, hasSingle1, keys2, hasSingle2) {
      CommonCallShows(keys1, hasSingle1, keys2, hasSingle2);
    } else {
      forall backend: Backend
        ensures BothAnswer(backend, keys1, hasSingle1, keys2, hasSingle2)
                <==> AnswersEachKey(backend, keys2, hasSingle2)
      {
        GroupsAnswered(backend, keys1, hasSingle1);
        NothingTaken(backend, keys1, hasSingle1, keys2, hasSingle2);
      }
      BatchIsRightExactly(keys2, hasSingle2);
    }
  }

  lemma NothingTaken(backend: Backend, keys1: seq<Key>, hasSingle1: bool, keys2: seq<Key>, hasSingle2: bool)
    requires NoCallInCommon(keys1, hasSingle1, keys2, hasSingle2)
    ensures LeftBy(keys1, Replies(backend, keys1, hasSingle1), Replies(backend, keys2, hasSingle2),
                   CallsInCommon(keys1, hasSingle1, keys2, hasSingle2)) == Replies(backend, keys2, hasSingle2)
    ensures BothAnswer(backend, keys1, hasSingle1, keys2, hasSingle2)
            <==> AnswersEachKey(backend, keys1, hasSingle1) && AnswersEachKey(backend, keys2, hasSingle2)
  {
    hide Serialize, GroupNames, Group, Replies, Dealt, Reversed, Drop, RequestFor;
  }

  /** The second batch finds the array of a call in common empty. */
  lemma CommonCallShows(keys1: seq<Key>, hasSingle1: bool, keys2: seq<Key>, hasSingle2: bool)
    requires !NoCallInCommon(keys1, hasSingle1, keys2, hasSingle2)
    ensures !BothAnswer((_, _) => Found(""), keys1, hasSingle1, keys2, hasSingle2)
  {
    hide Serialize, GroupNames, Group, Dealt, Dictionary, CallsInCommon, LeftBy, Replies, CallFor;
    var backend: Backend := (_, _) => Found("");
    var left := LeftBy(keys1, Replies(backend, keys1, hasSingle1), Replies(backend, keys2, hasSingle2),
                       CallsInCommon(keys1, hasSingle1, keys2, hasSingle2));
    var g, k :| 0 <= g < |GroupNames(keys2)| && 0 <= k < |GroupNames(keys1)|
      && CallFor(keys2, hasSingle2, g).Multiple? && CallFor(keys1, hasSingle1, k) == CallFor(keys2, hasSingle2, g);
    CommonCallDrained(backend, keys1, hasSingle1, keys2, hasSingle2, g, k);
    GroupIsNotEmpty(keys2, g);
    var i := GroupMemberIsKey(keys2, GroupNames(keys2)[g], 0);
    assert keys2[i] in keys2;
    assert IndexOf(GroupNames(keys2), Serialize(keys2[i])) == g;
    DealtFromGroup(keys2, left, i);
  }

  lemma CommonCallDrained(backend: Backend, keys1: seq<Key>, hasSingle1: bool, keys2: seq<Key>, hasSingle2: bool,
                          g: nat, k: nat)
    requires g < |GroupNames(keys2)| && k < |GroupNames(keys1)|
    requires CallFor(keys2, hasSingle2, g).Multiple? && CallFor(keys1, hasSingle1, k) == CallFor(keys2, hasSingle2, g)
    ensures LeftBy(keys1, Replies(backend, keys1, hasSingle1), Replies(backend, keys2, hasSingle2),
                   CallsInCommon(keys1, hasSingle1, keys2, hasSingle2))[g] == []
  {
    hide Serialize, GroupNames, Group, Dictionary;
    var contents1 := Replies(backend, keys1, hasSingle1);
    var h := CallsInCommon(keys1, hasSingle1, keys2, hasSingle2)[g].value;
    GroupIsNotEmpty(keys1, h);
    assert contents1[h] == ReplyTo(backend, CallFor(keys1, hasSingle1, h));
    assert |contents1[h]| == |Group(keys1, GroupNames(keys1)[h])|;
  }

  /** Every key takes from its group's reply, at its own position. */
  lemma DealtFromGroup(keys: seq<Key>, contents: seq<seq<Item>>, i: nat)
    requires |contents| == |GroupNames(keys)| && i < |keys| && Serialize(keys[i]) in GroupNames(keys)
    ensures Dealt(keys, contents)[i] == At(contents[IndexOf(GroupNames(keys), Serialize(keys[i]))], Rank(keys, i))
  {
    hide GroupNames, Serialize, Rank;
  }

  lemma OneGroup(keys: seq<Key>)
    requires |GroupNames(keys)| == 1
    ensures Group(keys, GroupNames(keys)[0]) == keys
    ensures forall key | key in keys :: Serialize(key) == GroupNames(keys)[0]
  {
    var name := GroupNames(keys)[0];
    forall key | key in keys ensures Serialize(key) == name {
      assert Serialize(key) in GroupNames(keys);
    }
    WholeGroup(keys, name);
  }

  lemma {:induction false} WholeGroup(keys: seq<Key>, name: string)
    requires forall key | key in keys :: Serialize(key) == name
    ensures Group(keys, name) == keys
  {
    hide Serialize;
    if keys != [] {
      var init, last := keys[..|keys| - 1], keys[|keys| - 1];
      assert last in keys;
      assert forall key | key in init :: key in keys;
      WholeGroup(init, name);
      assert Group(keys, name) == init + [last];
    }
  }

  lemma DealtFromOneGroup(keys: seq<Key>, items: seq<Item>)
    requires |GroupNames(keys)| == 1
    ensures forall i | 0 <= i < |keys| :: Dealt(keys, [items])[i] == At(items, i)
  {
    OneGroup(keys);
    forall i | 0 <= i < |keys| ensures Dealt(keys, [items])[i] == At(items, i) {
      assert keys[i] in keys;
      WholeGroup(keys[..i], GroupNames(keys)[0]);
    }
  }

}
