/** Whole runs of a batching loader (`src/lib/loaders/batchLoader.ts`): calls of the wrapper, kept in
    DataLoader's per-key promise cache, queued, dispatched in chunks of at most 20 keys, and settled
    chunk by chunk in any order, successfully or not. */
module LoaderRuns {
  import opened Params
  import opened BatchLoader
  import opened Sequences

  const MAX_BATCH_SIZE: nat := 20

  datatype Status = Waiting | Settled(item: Item) | Broken

  datatype Promise = Promise(key: Key, status: Status)

  /** A call of the wrapper: a string id, or an object with a list of ids. */
  datatype Call = ById(id: string) | ByIds(params: seq<Param>, ids: seq<string>)

  /** A call and the promises it waits for. */
  datatype Issued = Issued(call: Call, tickets: seq<nat>)

  datatype State = State(
    promises: seq<Promise>,
    cache: map<string, nat>,
    queue: seq<nat>,
    chunks: seq<seq<nat>>,
    issued: seq<Issued>)

  datatype Event = Issue(call: Call) | Dispatch | Settle(chunk: nat, succeeds: bool)

  /** What a loader is built from: the JSON text of a key object, the backend, and whether a single
      loader was given. */
  datatype World = World(json: Key -> string, backend: Backend, hasSingle: bool)

  const START := State([], map[], [], [], [])

  // ---------------------------------------------------------------- keys

  /** `cacheKeyFn`. */
  function CacheKey(json: Key -> string, key: Key): string {
    if key.params == [] then key.id else json(key)
  }

  function KeysOf(call: Call): (keys: seq<Key>)
    ensures |keys| == (if call.ById? then 1 else |call.ids|)
  {
    match call
    case ById(id) => [Key(id, [])]
    case ByIds(params, ids) => seq(|ids|, i requires 0 <= i < |ids| => Key(ids[i], params))
  }

  predicate SameLookup(a: Key, b: Key) {
    a.id == b.id && Dictionary(a.params) == Dictionary(b.params)
  }

  /** With an injective JSON text, two different keys share a cache entry exactly when one is a bare
      id that reads as the JSON text of the other. */
  lemma CacheKeysCollide(json: Key -> string, a: Key, b: Key)
    requires forall k, l :: json(k) == json(l) ==> k == l
    requires a != b
    ensures CacheKey(json, a) == CacheKey(json, b) <==>
            || (a.params == [] && b.params != [] && a.id == json(b))
            || (b.params == [] && a.params != [] && b.id == json(a))
  {
  }

  // ---------------------------------------------------------------- steps

  /** DataLoader's `load`: the remembered promise, or a new one that is remembered and queued. */
  function Load(w: World, s: State, key: Key): (r: (State, nat)) {
    var ck := CacheKey(w.json, key);
    if ck in s.cache then (s, s.cache[ck])
    else
      var t := |s.promises|;
      (s.(promises := s.promises + [Promise(key, Waiting)], cache := s.cache[ck := t], queue := s.queue + [t]), t)
  }

  function LoadMany(w: World, s: State, keys: seq<Key>): (r: (State, seq<nat>))
    ensures |r.1| == |keys|
  {
    if keys == [] then (s, [])
    else
      var (s1, ts) := LoadMany(w, s, keys[..|keys| - 1]);
      var (s2, t) := Load(w, s1, keys[|keys| - 1]);
      (s2, ts + [t])
  }

  /** The queue cut into chunks of at most 20. */
  function Chunks(queue: seq<nat>): seq<seq<nat>> {
    if queue == [] then []
    else if |queue| <= MAX_BATCH_SIZE then [queue]
    else [queue[..MAX_BATCH_SIZE]] + Chunks(queue[MAX_BATCH_SIZE..])
  }

  function ChunkKeys(s: State, chunk: seq<nat>): seq<Key> {
    seq(|chunk|, i requires 0 <= i < |chunk| => KeyOf(s, chunk[i]))
  }

  function KeyOf(s: State, t: nat): Key {
    if t < |s.promises| then s.promises[t].key else Key("", [])
  }

  function FirstIndex(chunk: seq<nat>, t: nat): (i: nat)
    requires t in chunk
    ensures i < |chunk| && chunk[i] == t
  {
    if chunk[0] == t then 0 else FirstIndex(chunk[1..], t) + 1
  }

  /** The chunk's promises get their results; a promise keeps the first it gets. */
  function WithResults(promises: seq<Promise>, chunk: seq<nat>, results: seq<Item>): (ps: seq<Promise>)
    requires |results| == |chunk|
    ensures |ps| == |promises|
    ensures forall t | 0 <= t < |ps| :: ps[t].key == promises[t].key
  {
    seq(|promises|, t requires 0 <= t < |promises| =>
      if t in chunk then promises[t].(status := Settled(results[FirstIndex(chunk, t)])) else promises[t])
  }

  /** The chunk's promises are rejected. */
  function WithFailures(promises: seq<Promise>, chunk: seq<nat>): (ps: seq<Promise>)
    ensures |ps| == |promises|
    ensures forall t | 0 <= t < |ps| :: ps[t].key == promises[t].key
    ensures forall t | 0 <= t < |ps| :: ps[t].status == if t in chunk then Broken else promises[t].status
  {
    seq(|promises|, t requires 0 <= t < |promises| =>
      if t in chunk then promises[t].(status := Broken) else promises[t])
  }

  /** Chunk `c` leaves the flight and its promises are dealt their results from these replies. */
  function SucceedWith(s: State, c: nat, contents: seq<seq<Item>>): State
    requires c < |s.chunks| && |contents| == |GroupNames(ChunkKeys(s, s.chunks[c]))|
  {
    s.(chunks := s.chunks[..c] + s.chunks[c + 1..],
       promises := WithResults(s.promises, s.chunks[c], Dealt(ChunkKeys(s, s.chunks[c]), contents)))
  }

  function Succeed(w: World, s: State, c: nat): State
    requires c < |s.chunks|
  {
    SucceedWith(s, c, Replies(w.backend, ChunkKeys(s, s.chunks[c]), w.hasSingle))
  }

  /** Chunk `c` leaves the flight, its promises are rejected and forgotten. */
  function Fail(w: World, s: State, c: nat): State
    requires c < |s.chunks|
  {
    var keys := ChunkKeys(s, s.chunks[c]);
    s.(chunks := s.chunks[..c] + s.chunks[c + 1..],
       promises := WithFailures(s.promises, s.chunks[c]),
       cache := s.cache - set key | key in keys :: CacheKey(w.json, key))
  }

  function Step(w: World, s: State, e: Event): State {
    match e
    case Issue(call) =>
      var (s1, ts) := LoadMany(w, s, KeysOf(call));
      s1.(issued := s1.issued + [Issued(call, ts)])
    case Dispatch =>
      s.(queue := [], chunks := s.chunks + Chunks(s.queue))
    case Settle(c, succeeds) =>
      if c >= |s.chunks| then s else if succeeds then Succeed(w, s, c) else Fail(w, s, c)
  }

  function Run(w: World, events: seq<Event>): State {
    if events == [] then START else Step(w, Run(w, events[..|events| - 1]), events[|events| - 1])
  }

  // ---------------------------------------------------------------- answers

  function Results(s: State, tickets: seq<nat>): seq<Status> {
    seq(|tickets|, i requires 0 <= i < |tickets| =>
      if tickets[i] < |s.promises| then s.promises[tickets[i]].status else Waiting)
  }

  predicate AllSettled(statuses: seq<Status>) {
    forall i | 0 <= i < |statuses| :: statuses[i].Settled?
  }

  function Items(statuses: seq<Status>): (items: seq<Item>)
    requires AllSettled(statuses)
    ensures |items| == |statuses| && forall i | 0 <= i < |items| :: items[i] == statuses[i].item
  {
    seq(|statuses|, i requires 0 <= i < |statuses| => statuses[i].item)
  }

  function Without(items: seq<Item>, dropped: set<Item>): seq<Item> {
    if items == [] then []
    else Kept(items[0], dropped) + Without(items[1..], dropped)
  }

  function Kept(item: Item, dropped: set<Item>): seq<Item> { if item in dropped then [] else [item] }

  lemma WithoutHead(items: seq<Item>, rest: seq<Item>, dropped: set<Item>)
    requires items != [] && items[1..] == rest
    ensures Without(items, dropped) == Kept(items[0], dropped) + Without(rest, dropped)
  {
  }

  /** Each item is dropped or kept for itself, in its place. */
  lemma {:induction false} WithoutKeepsOrder(a: seq<Item>, b: seq<Item>, dropped: set<Item>)
    ensures Without(a + b, dropped) == Without(a, dropped) + Without(b, dropped)
  {
    if a == [] {
      assert a + b == b;
    } else {
      WithoutKeepsOrder(a[1..], b, dropped);
      WithoutHead(a, a[1..], dropped);
      WithoutHead(a + b, a[1..] + b, dropped);
      Associative(Kept(a[0], dropped), Without(a[1..], dropped), Without(b, dropped));
    }
  }

  lemma Associative<T>(a: seq<T>, b: seq<T>, c: seq<T>)
    ensures a + (b + c) == (a + b) + c
  {
  }

  /** What the wrapper makes of its promises' values: the value for a string id, a list without
      `null` for a list of ids, and without `undefined` too when the list has one id. */
  function Answer(call: Call, items: seq<Item>): seq<Item> {
    match call
    case ById(_) => items
    case ByIds(_, ids) => if |ids| == 1 then Without(items, {Null, Undefined}) else Without(items, {Null})
  }

  /** Every id looked up alone, in the requested order. */
  function AloneEach(w: World, call: Call): (items: seq<Item>)
    ensures |items| == |KeysOf(call)|
  {
    seq(|KeysOf(call)|, i requires 0 <= i < |KeysOf(call)| => Alone(w.backend, KeysOf(call)[i]))
  }

  // ---------------------------------------------------------------- invariants

  /** Keys that are grouped together have the same parameters, and those cached together are for the same
      lookup. */
  ghost predicate Unconfusing(json: Key -> string, keys: set<Key>) {
    && (forall a, b | a in keys && b in keys && Serialize(a) == Serialize(b) ::
          Dictionary(a.params) == Dictionary(b.params))
    && (forall a, b | a in keys && b in keys && CacheKey(json, a) == CacheKey(json, b) :: SameLookup(a, b))
  }

  /** Plain keys are such keys, if the JSON text is injective and no bare id reads as another's. */
  lemma PlainKeysAreUnconfusing(json: Key -> string, keys: set<Key>)
    requires forall key | key in keys :: IsObject(key.params) && Params.Plain(key.params)
    requires forall k, l :: json(k) == json(l) ==> k == l
    requires forall a, b | a in keys && b in keys && a.params == [] && b.params != [] :: a.id != json(b)
    ensures Unconfusing(json, keys)
  {
    hide Serialize, Dictionary, IsObject, Params.Plain;
    forall a, b | a in keys && b in keys && Serialize(a) == Serialize(b)
      ensures Dictionary(a.params) == Dictionary(b.params)
    {
      SerializeIsCanonical(a, b);
    }
    forall a, b | a in keys && b in keys && CacheKey(json, a) == CacheKey(json, b) ensures SameLookup(a, b) {
      if a != b {
        CacheKeysCollide(json, a, b);
      }
    }
  }

  ghost predicate CallsWithin(events: seq<Event>, keys: set<Key>) {
    forall e | e in events && e.Issue? :: forall key | key in KeysOf(e.call) :: key in keys
  }

  /** Promises are for known keys, and a settled one holds what a lone lookup gives. */
  ghost predicate PromisesRight(w: World, s: State, keys: set<Key>) {
    forall p | p in s.promises ::
      p.key in keys && (p.status.Settled? ==> p.status.item == Alone(w.backend, p.key))
  }

  /** A remembered promise has the cache key it is remembered under, and is not broken. */
  ghost predicate CacheRight(w: World, s: State) {
    forall ck | ck in s.cache ::
      && s.cache[ck] < |s.promises| && CacheKey(w.json, s.promises[s.cache[ck]].key) == ck
      && !s.promises[s.cache[ck]].status.Broken?
  }

  /** A call waits for promises of its own keys, up to the cache key. */
  ghost predicate IssuedRight(w: World, promises: seq<Promise>, i: Issued) {
    && |i.tickets| == |KeysOf(i.call)|
    && forall k | 0 <= k < |i.tickets| ::
         i.tickets[k] < |promises|
         && CacheKey(w.json, promises[i.tickets[k]].key) == CacheKey(w.json, KeysOf(i.call)[k])
  }

  ghost predicate AllIssuedRight(w: World, s: State) {
    forall i | i in s.issued :: IssuedRight(w, s.promises, i)
  }

  /** The pending tickets, those queued and those in flight. */
  function Pending(s: State): seq<nat> {
    s.queue + Flatten(s.chunks)
  }

  /** A promise waits if and only if it is pending, and then exactly once. */
  ghost predicate PendingRight(s: State) {
    forall t: nat :: multiset(Pending(s))[t] == if t < |s.promises| && s.promises[t].status.Waiting? then 1 else 0
  }

  ghost predicate SmallChunks(s: State) {
    forall c | c in s.chunks :: 0 < |c| <= 20
  }

  /** The promise of a cache key, unless it broke, is the one remembered. */
  ghost predicate Remembered(w: World, s: State) {
    forall t | 0 <= t < |s.promises| && !s.promises[t].status.Broken? ::
      var ck := CacheKey(w.json, s.promises[t].key);
      ck in s.cache && s.cache[ck] == t
  }

  /** What holds whatever the keys and the backend. */
  ghost predicate Sound(w: World, s: State) {
    && CacheRight(w, s)
    && AllIssuedRight(w, s)
    && PendingRight(s)
    && SmallChunks(s)
    && Remembered(w, s)
  }

  ghost predicate Invariant(w: World, s: State, keys: set<Key>) {
    PromisesRight(w, s, keys) && Sound(w, s)
  }

  // ---------------------------------------------------------------- loading

  /** Calls stay right while promises keep their keys and none is taken away. */
  lemma IssuedStays(w: World, s: State, s': State)
    requires AllIssuedRight(w, s) && s'.issued == s.issued
    requires |s.promises| <= |s'.promises|
    requires forall t | 0 <= t < |s.promises| :: s'.promises[t].key == s.promises[t].key
    ensures AllIssuedRight(w, s')
  {
    hide CacheKey, KeysOf;
    forall i | i in s'.issued ensures IssuedRight(w, s'.promises, i) {
      assert IssuedRight(w, s.promises, i);
    }
  }

  lemma LoadPending(w: World, s: State, key: Key)
    requires PendingRight(s)
    ensures PendingRight(Load(w, s, key).0)
  {
    hide CacheKey, Flatten;
    var s' := Load(w, s, key).0;
    if s' != s {
      var n := |s.promises|;
      assert Pending(s') == s.queue + [n] + Flatten<nat>(s.chunks);
      assert multiset(Pending(s')) == multiset(Pending(s)) + multiset{n};
    }
  }

  lemma LoadIsSound(w: World, s: State, key: Key)
    requires Sound(w, s)
    ensures var (s', t) := Load(w, s, key);
            && Sound(w, s')
            && s.promises <= s'.promises
            && s'.issued == s.issued
            && (forall u | |s.promises| <= u < |s'.promises| :: s'.promises[u] == Promise(key, Waiting))
            && t < |s'.promises| && CacheKey(w.json, s'.promises[t].key) == CacheKey(w.json, key)
            && !s'.promises[t].status.Broken?
  {
    hide CacheKey, PendingRight, AllIssuedRight;
    var s' := Load(w, s, key).0;
    LoadPending(w, s, key);
    IssuedStays(w, s, s');
  }

  lemma {:induction false} LoadManyIsSound(w: World, s: State, ks: seq<Key>)
    requires Sound(w, s)
    ensures var (s', ts) := LoadMany(w, s, ks);
            && Sound(w, s')
            && s.promises <= s'.promises
            && s'.issued == s.issued
            && (forall u | |s.promises| <= u < |s'.promises| ::
                  s'.promises[u].status.Waiting? && s'.promises[u].key in ks)
            && forall k | 0 <= k < |ts| ::
                 && ts[k] < |s'.promises| && CacheKey(w.json, s'.promises[ts[k]].key) == CacheKey(w.json, ks[k])
                 && !s'.promises[ts[k]].status.Broken?
  {
    hide Sound, Load, CacheKey;
    if ks != [] {
      var init, last := ks[..|ks| - 1], ks[|ks| - 1];
      LoadManyIsSound(w, s, init);
      LoadIsSound(w, LoadMany(w, s, init).0, last);
      assert ks == init + [last];
    }
  }

  lemma IssueIsSound(w: World, s: State, call: Call)
    requires Sound(w, s)
    ensures Sound(w, Step(w, s, Issue(call)))
  {
    hide LoadMany, CacheKey, PendingRight, CacheRight, Remembered, SmallChunks, KeysOf;
    LoadManyIsSound(w, s, KeysOf(call));
    var (s1, ts) := LoadMany(w, s, KeysOf(call));
    assert IssuedRight(w, s1.promises, Issued(call, ts));
    SameButIssued(w, s1, Step(w, s, Issue(call)));
  }

  /** Only the issued calls differ. */
  lemma SameButIssued(w: World, s: State, s': State)
    requires Sound(w, s) && s' == s.(issued := s'.issued)
    requires forall i | i in s'.issued :: i in s.issued || IssuedRight(w, s.promises, i)
    ensures Sound(w, s')
  {
    hide CacheKey, IssuedRight, Flatten;
    assert Pending(s') == Pending(s);
  }

  lemma IssueKeeps(w: World, s: State, call: Call, keys: set<Key>)
    requires Invariant(w, s, keys) && forall key | key in KeysOf(call) :: key in keys
    ensures Invariant(w, Step(w, s, Issue(call)), keys)
  {
    hide Sound, LoadMany, KeysOf;
    IssueIsSound(w, s, call);
    LoadManyIsSound(w, s, KeysOf(call));
    var s' := Step(w, s, Issue(call));
    forall p | p in s'.promises
      ensures p.key in keys && (p.status.Settled? ==> p.status.item == Alone(w.backend, p.key))
    {
      var t: nat :| t < |s'.promises| && s'.promises[t] == p;
      if t < |s.promises| {
        assert s.promises[t] in s.promises;
      }
    }
  }

  // ---------------------------------------------------------------- dispatching and settling

  lemma {:induction false} ChunksCover(queue: seq<nat>)
    ensures Flatten(Chunks(queue)) == queue
    ensures forall c | c in Chunks(queue) :: 0 < |c| <= 20
  {
    if |queue| > MAX_BATCH_SIZE {
      ChunksCover(queue[MAX_BATCH_SIZE..]);
      assert queue == queue[..MAX_BATCH_SIZE] + queue[MAX_BATCH_SIZE..];
    } else if queue != [] {
      assert Flatten([queue]) == queue + Flatten([queue][1..]);
    }
  }

  /** No more chunks than need be: all but the last are full. */
  lemma {:induction false} ChunksAreFull(queue: seq<nat>)
    ensures forall c | 0 <= c < |Chunks(queue)| - 1 :: |Chunks(queue)[c]| == 20
  {
    if |queue| > MAX_BATCH_SIZE {
      ChunksAreFull(queue[MAX_BATCH_SIZE..]);
    }
  }

  lemma DispatchKeeps(w: World, s: State, keys: set<Key>)
    requires Invariant(w, s, keys)
    ensures Invariant(w, Step(w, s, Dispatch), keys)
  {
    hide Sound;
    DispatchIsSound(w, s);
  }

  lemma DispatchIsSound(w: World, s: State)
    requires Sound(w, s)
    ensures Sound(w, Step(w, s, Dispatch))
  {
    var s' := Step(w, s, Dispatch);
    ChunksCover(s.queue);
    FlattenConcat(s.chunks, Chunks(s.queue));
    assert multiset(Pending(s')) == multiset(Pending(s));
  }

  lemma RemoveChunk(chunks: seq<seq<nat>>, c: nat)
    requires c < |chunks|
    ensures multiset(Flatten(chunks)) == multiset(Flatten(chunks[..c] + chunks[c + 1..])) + multiset(chunks[c])
  {
    hide Flatten;
    var before, after := chunks[..c], chunks[c + 1..];
    assert chunks == before + ([chunks[c]] + after);
    FlattenConcat(before, [chunks[c]] + after);
    FlattenConcat(before, after);
    FlattenCons(chunks[c], after);
    ThreeParts(Flatten(before), chunks[c], Flatten(after));
  }

  lemma FlattenCons(chunk: seq<nat>, rest: seq<seq<nat>>)
    ensures Flatten([chunk] + rest) == chunk + Flatten(rest)
  {
    assert ([chunk] + rest)[1..] == rest;
  }

  lemma ThreeParts<T>(a: seq<T>, b: seq<T>, c: seq<T>)
    ensures multiset(a + (b + c)) == multiset(a + c) + multiset(b)
  {
  }

  /** The tickets of a chunk in flight are distinct waiting promises, and leave the pending ones. */
  lemma ChunkWaits(s: State, c: nat)
    requires PendingRight(s) && c < |s.chunks|
    ensures forall t | t in s.chunks[c] :: t < |s.promises| && s.promises[t].status.Waiting?
    ensures var s' := s.(chunks := s.chunks[..c] + s.chunks[c + 1..]);
            forall t: nat :: multiset(Pending(s'))[t] ==
              if t < |s.promises| && s.promises[t].status.Waiting? && t !in s.chunks[c] then 1 else 0
  {
    var chunk := s.chunks[c];
    var s' := s.(chunks := s.chunks[..c] + s.chunks[c + 1..]);
    RemoveChunk(s.chunks, c);
    assert multiset(Pending(s)) == multiset(Pending(s')) + multiset(chunk);
    forall t: nat | t in chunk ensures multiset(chunk)[t] >= 1 && multiset(Pending(s))[t] == 1 {
      assert t in multiset(chunk);
    }
  }

  lemma ResultsReachPromises(promises: seq<Promise>, chunk: seq<nat>, results: seq<Item>, t: nat)
    requires |results| == |chunk| && t < |promises|
    ensures var p := WithResults(promises, chunk, results)[t];
            if t in chunk
            then exists i | 0 <= i < |chunk| :: chunk[i] == t && p.status == Settled(results[i])
            else p == promises[t]
  {
    if t in chunk {
      assert chunk[FirstIndex(chunk, t)] == t;
    }
  }

  lemma SettleKeeps(w: World, s: State, c: nat, succeeds: bool, keys: set<Key>)
    requires Invariant(w, s, keys) && Unconfusing(w.json, keys)
    ensures Invariant(w, Step(w, s, Settle(c, succeeds)), keys)
  {
    hide Sound, Unconfusing, Succeed, Fail;
    if c < |s.chunks| {
      SoundPending(w, s);
      ChunkWaits(s, c);
      if succeeds {
        SuccessKeeps(w, s, c, keys);
      } else {
        FailureKeeps(w, s, c, keys);
      }
    }
  }

  lemma SoundPending(w: World, s: State)
    requires Sound(w, s)
    ensures PendingRight(s)
  {
  }

  /** Once the chunk's promises no longer wait, waiting is pending again. */
  lemma PendingAfter(s: State, s': State, c: nat)
    requires PendingRight(s) && c < |s.chunks|
    requires s'.queue == s.queue && s'.chunks == s.chunks[..c] + s.chunks[c + 1..]
    requires |s'.promises| == |s.promises|
    requires forall t | 0 <= t < |s.promises| ::
               s'.promises[t].status.Waiting? <==> s.promises[t].status.Waiting? && t !in s.chunks[c]
    ensures PendingRight(s')
  {
    hide Flatten;
    ChunkWaits(s, c);
    assert Pending(s') == Pending(s.(chunks := s'.chunks));
  }

  /** A chunk's keys are known ones. */
  lemma ChunkKeysKnown(w: World, s: State, chunk: seq<nat>, keys: set<Key>)
    requires PromisesRight(w, s, keys) && forall t | t in chunk :: t < |s.promises|
    ensures forall key | key in ChunkKeys(s, chunk) :: key in keys
  {
    forall key | key in ChunkKeys(s, chunk) ensures key in keys {
      var i :| 0 <= i < |chunk| && ChunkKeys(s, chunk)[i] == key;
      assert chunk[i] in chunk;
      assert s.promises[chunk[i]] in s.promises;
    }
  }

  /** What a successful chunk does to each promise. */
  lemma SuccessStatus(w: World, s: State, c: nat, keys: set<Key>, t: nat)
    requires PromisesRight(w, s, keys) && Unconfusing(w.json, keys) && c < |s.chunks| && t < |s.promises|
    requires forall u | u in s.chunks[c] :: u < |s.promises|
    ensures var p := Succeed(w, s, c).promises[t];
            if t in s.chunks[c] then p.status == Settled(Alone(w.backend, p.key)) else p == s.promises[t]
  {
    hide Dealt, Replies, CacheKey, WithResults, Alone, Dictionary;
    var chunk := s.chunks[c];
    var ks := ChunkKeys(s, chunk);
    var results := Dealt(ks, Replies(w.backend, ks, w.hasSingle));
    ResultsReachPromises(s.promises, chunk, results, t);
    forall i | 0 <= i < |chunk| ensures results[i] == Alone(w.backend, ks[i]) {
      ChunkAnswered(w, s, chunk, keys);
    }
  }

  lemma ChunkAnswered(w: World, s: State, chunk: seq<nat>, keys: set<Key>)
    requires PromisesRight(w, s, keys) && Unconfusing(w.json, keys)
    requires forall u | u in chunk :: u < |s.promises|
    ensures AnswersEachKey(w.backend, ChunkKeys(s, chunk), w.hasSingle)
  {
    hide CacheKey, AnswersEachKey, Serialize, Dictionary, Group, GroupNames;
    ChunkKeysKnown(w, s, chunk, keys);
    var ks := ChunkKeys(s, chunk);
    forall g, r | 0 <= g < |GroupNames(ks)| && 0 <= r < |Group(ks, GroupNames(ks)[g])|
      ensures Dictionary(Group(ks, GroupNames(ks)[g])[r].params) == Dictionary(Group(ks, GroupNames(ks)[g])[0].params)
    {
      var group := Group(ks, GroupNames(ks)[g]);
      assert group[r] in group && group[0] in group;
    }
    GroupsAnswered(w.backend, ks, w.hasSingle);
  }

  /** The cache stays right while it is not changed, promises keep their keys and none is mended. */
  lemma MemoryStays(w: World, s: State, s': State)
    requires CacheRight(w, s) && Remembered(w, s)
    requires s'.cache == s.cache && |s'.promises| == |s.promises|
    requires forall t | 0 <= t < |s.promises| ::
               && s'.promises[t].key == s.promises[t].key
               && (s.promises[t].status.Broken? <==> s'.promises[t].status.Broken?)
    ensures CacheRight(w, s') && Remembered(w, s')
  {
    hide CacheKey;
  }

  /** Whatever the replies hold. */
  lemma SuccessIsSound(w: World, s: State, c: nat, contents: seq<seq<Item>>)
    requires Sound(w, s) && c < |s.chunks| && |contents| == |GroupNames(ChunkKeys(s, s.chunks[c]))|
    ensures Sound(w, SucceedWith(s, c, contents))
  {
    hide CacheKey, PendingRight, AllIssuedRight, CacheRight, Remembered, Dealt, WithResults, GroupNames;
    var s' := SucceedWith(s, c, contents);
    ChunkWaits(s, c);
    forall t: nat | t < |s.promises|
      ensures s'.promises[t].key == s.promises[t].key
      ensures if t in s.chunks[c] then s'.promises[t].status.Settled? else s'.promises[t] == s.promises[t]
    {
      ResultsReachPromises(s.promises, s.chunks[c], Dealt(ChunkKeys(s, s.chunks[c]), contents), t);
    }
    PendingAfter(s, s', c);
    IssuedStays(w, s, s');
    assert forall t | 0 <= t < |s.promises| && s.promises[t].status.Broken? :: t !in s.chunks[c];
    MemoryStays(w, s, s');
  }

  lemma SuccessKeeps(w: World, s: State, c: nat, keys: set<Key>)
    requires Invariant(w, s, keys) && Unconfusing(w.json, keys) && c < |s.chunks|
    requires forall t | t in s.chunks[c] :: t < |s.promises| && s.promises[t].status.Waiting?
    ensures Invariant(w, Succeed(w, s, c), keys)
  {
    hide Sound, Unconfusing, Dealt, Replies, WithResults, Alone;
    SuccessIsSound(w, s, c, Replies(w.backend, ChunkKeys(s, s.chunks[c]), w.hasSingle));
    var s' := Succeed(w, s, c);
    forall p | p in s'.promises
      ensures p.key in keys && (p.status.Settled? ==> p.status.item == Alone(w.backend, p.key))
    {
      var t: nat :| t < |s'.promises| && s'.promises[t] == p;
      assert s.promises[t] in s.promises;
      SuccessStatus(w, s, c, keys, t);
    }
  }

  lemma FailureIsSound(w: World, s: State, c: nat)
    requires Sound(w, s) && c < |s.chunks|
    ensures Sound(w, Fail(w, s, c))
  {
    hide CacheKey, PendingRight, AllIssuedRight, CacheRight, Remembered;
    var s' := Fail(w, s, c);
    ChunkWaits(s, c);
    FailureForgets(w, s, c);
    PendingAfter(s, s', c);
    IssuedStays(w, s, s');
  }

  lemma FailureKeeps(w: World, s: State, c: nat, keys: set<Key>)
    requires Invariant(w, s, keys) && c < |s.chunks|
    requires forall t | t in s.chunks[c] :: t < |s.promises| && s.promises[t].status.Waiting?
    ensures Invariant(w, Fail(w, s, c), keys)
  {
    hide Sound;
    FailureIsSound(w, s, c);
    var s' := Fail(w, s, c);
    forall p | p in s'.promises
      ensures p.key in keys && (p.status.Settled? ==> p.status.item == Alone(w.backend, p.key))
    {
      var t: nat :| t < |s'.promises| && s'.promises[t] == p;
      assert s.promises[t] in s.promises;
    }
  }

  /** A failed chunk's cache keys are forgotten, and no others. */
  lemma FailureForgets(w: World, s: State, c: nat)
    requires CacheRight(w, s) && Remembered(w, s) && c < |s.chunks|
    requires forall t | t in s.chunks[c] :: t < |s.promises| && s.promises[t].status.Waiting?
    ensures CacheRight(w, Fail(w, s, c)) && Remembered(w, Fail(w, s, c))
  {
    hide CacheKey;
    NothingBrokenStays(w, s, c);
    var chunk := s.chunks[c];
    var ks := ChunkKeys(s, chunk);
    var s' := Fail(w, s, c);
    forall t | 0 <= t < |s'.promises| && !s'.promises[t].status.Broken?
      ensures CacheKey(w.json, s'.promises[t].key) in s'.cache && s'.cache[CacheKey(w.json, s'.promises[t].key)] == t
    {
      var ck := CacheKey(w.json, s.promises[t].key);
      assert s.cache[ck] == t;
      forall key | key in ks ensures CacheKey(w.json, key) != ck {
        var i :| 0 <= i < |chunk| && ks[i] == key;
        var u := chunk[i];
        assert u in chunk && s.cache[CacheKey(w.json, s.promises[u].key)] == u;
      }
    }
  }

  lemma NothingBrokenStays(w: World, s: State, c: nat)
    requires CacheRight(w, s) && c < |s.chunks|
    ensures CacheRight(w, Fail(w, s, c))
  {
    hide CacheKey;
    var chunk := s.chunks[c];
    var ks := ChunkKeys(s, chunk);
    forall i | 0 <= i < |chunk|
      ensures chunk[i] < |s.promises| ==> CacheKey(w.json, s.promises[chunk[i]].key) !in Fail(w, s, c).cache
    {
      assert ks[i] in ks;
    }
  }

  // ---------------------------------------------------------------- whole runs

  lemma StepIsSound(w: World, s: State, e: Event)
    requires Sound(w, s)
    ensures Sound(w, Step(w, s, e))
  {
    hide Sound;
    match e
    case Issue(call) => IssueIsSound(w, s, call);
    case Dispatch => DispatchIsSound(w, s);
    case Settle(c, succeeds) =>
      if c < |s.chunks| {
        SuccessIsSound(w, s, c, Replies(w.backend, ChunkKeys(s, s.chunks[c]), w.hasSingle));
        FailureIsSound(w, s, c);
      }
  }

  lemma StartIsSound(w: World)
    ensures Sound(w, START)
  {
    assert Pending(START) == [];
  }

  /** Over every run, whatever the keys and the backend. */
  lemma {:induction false} RunIsSound(w: World, events: seq<Event>)
    ensures Sound(w, Run(w, events))
  {
    hide Sound, Step;
    if events == [] {
      StartIsSound(w);
    } else {
      RunIsSound(w, events[..|events| - 1]);
      StepIsSound(w, Run(w, events[..|events| - 1]), events[|events| - 1]);
    }
  }

  lemma {:induction false} RunKeeps(w: World, events: seq<Event>, keys: set<Key>)
    requires Unconfusing(w.json, keys) && CallsWithin(events, keys)
    ensures Invariant(w, Run(w, events), keys)
  {
    if events != [] {
      var init, e := events[..|events| - 1], events[|events| - 1];
      RunKeeps(w, init, keys);
      var s := Run(w, init);
      match e
      case Issue(call) => IssueKeeps(w, s, call, keys);
      case Dispatch => DispatchKeeps(w, s, keys);
      case Settle(c, succeeds) => SettleKeeps(w, s, c, succeeds, keys);
    }
  }

  /** Over every run, a call whose promises have all settled holds exactly what looking up each of
      its ids alone gives, in the requested order. */
  lemma EveryCallIsAnsweredAlone(w: World, events: seq<Event>, keys: set<Key>, i: Issued)
    requires Unconfusing(w.json, keys) && CallsWithin(events, keys)
    requires var s := Run(w, events); i in s.issued && AllSettled(Results(s, i.tickets))
    ensures Items(Results(Run(w, events), i.tickets)) == AloneEach(w, i.call)
  {
    hide Run;
    RunKeeps(w, events, keys);
    CallKeysKnown(w, events, keys, i);
    StateAnswersAlone(w, Run(w, events), keys, i);
  }

  lemma StateAnswersAlone(w: World, s: State, keys: set<Key>, i: Issued)
    requires Invariant(w, s, keys) && Unconfusing(w.json, keys)
    requires i in s.issued && AllSettled(Results(s, i.tickets))
    requires forall key | key in KeysOf(i.call) :: key in keys
    ensures Items(Results(s, i.tickets)) == AloneEach(w, i.call)
  {
    hide CacheKey, Alone;
    forall k | 0 <= k < |i.tickets|
      ensures Items(Results(s, i.tickets))[k] == Alone(w.backend, KeysOf(i.call)[k])
    {
      TicketIsRight(w, s, keys, i, k);
    }
    assert |i.tickets| == |KeysOf(i.call)| by {
      assert IssuedRight(w, s.promises, i);
    }
  }

  lemma TicketIsRight(w: World, s: State, keys: set<Key>, i: Issued, k: nat)
    requires Invariant(w, s, keys) && Unconfusing(w.json, keys)
    requires i in s.issued && k < |i.tickets| && AllSettled(Results(s, i.tickets))
    requires forall key | key in KeysOf(i.call) :: key in keys
    ensures k < |KeysOf(i.call)|
    ensures Items(Results(s, i.tickets))[k] == Alone(w.backend, KeysOf(i.call)[k])
  {
    hide CacheKey, PendingRight, Remembered, CacheRight, SmallChunks, Serialize, Dictionary;
    assert IssuedRight(w, s.promises, i);
    var p, key := s.promises[i.tickets[k]], KeysOf(i.call)[k];
    assert p in s.promises && key in KeysOf(i.call);
    assert Results(s, i.tickets)[k] == p.status;
    assert SameLookup(p.key, key);
  }

  lemma {:induction false} LoadManyIssuesNothing(w: World, s: State, ks: seq<Key>)
    ensures LoadMany(w, s, ks).0.issued == s.issued
  {
    if ks != [] {
      LoadManyIssuesNothing(w, s, ks[..|ks| - 1]);
    }
  }

  lemma {:induction false} CallKeysKnown(w: World, events: seq<Event>, keys: set<Key>, i: Issued)
    requires CallsWithin(events, keys) && i in Run(w, events).issued
    ensures forall key | key in KeysOf(i.call) :: key in keys
  {
    if events != [] {
      var init, e := events[..|events| - 1], events[|events| - 1];
      var s := Run(w, init);
      assert e in events;
      if e.Issue? {
        LoadManyIssuesNothing(w, s, KeysOf(e.call));
      }
      if i in s.issued {
        CallKeysKnown(w, init, keys, i);
      }
    }
  }

  /** Every call whose promises have all settled holds what its ids give alone. */
  ghost predicate AnswersAlone(w: World, s: State) {
    forall i | i in s.issued && AllSettled(Results(s, i.tickets)) ::
      Items(Results(s, i.tickets)) == AloneEach(w, i.call)
  }

  /** Whatever the backend and the run of calls for a set of keys, the calls are answered as if each id were
      looked up alone, if and only if the keys are unconfusing. */
  lemma CallsAreAnsweredAloneExactly(json: Key -> string, hasSingle: bool, keys: set<Key>)
    ensures (forall backend: Backend, events: seq<Event> | CallsWithin(events, keys) ::
               var w := World(json, backend, hasSingle); AnswersAlone(w, Run(w, events)))
            <==> Unconfusing(json, keys)
  {
    hide Run, CacheKey, Serialize, Dictionary, Results;
    if Unconfusing(json, keys) {
      forall backend: Backend, events: seq<Event> | CallsWithin(events, keys)
        ensures var w := World(json, backend, hasSingle); AnswersAlone(w, Run(w, events))
      {
        var w := World(json, backend, hasSingle);
        forall i | i in Run(w, events).issued && AllSettled(Results(Run(w, events), i.tickets))
          ensures Items(Results(Run(w, events), i.tickets)) == AloneEach(w, i.call)
        {
          EveryCallIsAnsweredAlone(w, events, keys, i);
        }
      }
    } else {
      var a, b := ConfusedKeys(json, keys);
      ConfusedKeysShow(json, hasSingle, a, b);
      assert CallsWithin(TwoCalls(a, b), keys);
    }
  }

  /** Keys that are cached together, or grouped together, wrongly. */
  ghost predicate Confused(json: Key -> string, a: Key, b: Key) {
    || (CacheKey(json, a) == CacheKey(json, b) && !SameLookup(a, b))
    || (Serialize(a) == Serialize(b) && Dictionary(a.params) != Dictionary(b.params))
  }

  lemma ConfusedKeys(json: Key -> string, keys: set<Key>) returns (a: Key, b: Key)
    requires !Unconfusing(json, keys)
    ensures a in keys && b in keys && Confused(json, a, b)
  {
    hide CacheKey, Serialize, Dictionary;
    a, b :| a in keys && b in keys && Confused(json, a, b);
  }

  lemma ConfusedKeysShow(json: Key -> string, hasSingle: bool, a: Key, b: Key)
    requires Confused(json, a, b)
    ensures exists backend: Backend ::
              var w := World(json, backend, hasSingle); !AnswersAlone(w, Run(w, TwoCalls(a, b)))
  {
    hide CacheKey, Serialize, Dictionary, Run, AnswersAlone;
    if CacheKey(json, a) == CacheKey(json, b) {
      SharedPromiseShows(json, hasSingle, a, b);
    } else {
      SharedGroupShows(json, hasSingle, a, b);
    }
  }

  /** A call for one key. */
  function AskFor(key: Key): (call: Call)
    ensures KeysOf(call) == [key]
  {
    ByIds(key.params, [key.id])
  }

  /** Two keys asked for, and answered in one chunk. */
  function TwoCalls(a: Key, b: Key): (events: seq<Event>)
    ensures forall e, key | e in events && e.Issue? && key in KeysOf(e.call) :: key == a || key == b
  {
    [Issue(AskFor(a)), Issue(AskFor(b)), Dispatch, Settle(0, true)]
  }

  lemma RunOfNothing(w: World)
    ensures Run(w, []) == START
  {
  }

  lemma RunGrows(w: World, events: seq<Event>, e: Event)
    ensures Run(w, events + [e]) == Step(w, Run(w, events), e)
  {
    assert (events + [e])[..|events|] == events;
  }

  lemma AskedRun(w: World, a: Key, b: Key)
    ensures Run(w, [Issue(AskFor(a)), Issue(AskFor(b)), Dispatch]) ==
            Step(w, Step(w, Step(w, START, Issue(AskFor(a))), Issue(AskFor(b))), Dispatch)
  {
    hide Step, Run;
    RunOfNothing(w);
    var e1, e2 := Issue(AskFor(a)), Issue(AskFor(b));
    RunGrows(w, [], e1);
    RunGrows(w, [] + [e1], e2);
    RunGrows(w, [] + [e1] + [e2], Dispatch);
    assert [e1, e2, Dispatch] == [] + [e1] + [e2] + [Dispatch];
  }

  lemma TwoCallsRun(w: World, a: Key, b: Key)
    ensures Run(w, TwoCalls(a, b)) ==
            Step(w, Step(w, Step(w, Step(w, START, Issue(AskFor(a))), Issue(AskFor(b))), Dispatch), Settle(0, true))
  {
    hide Step, Run;
    var asked := [Issue(AskFor(a)), Issue(AskFor(b)), Dispatch];
    AskedRun(w, a, b);
    RunGrows(w, asked, Settle(0, true));
    assert TwoCalls(a, b) == asked + [Settle(0, true)];
  }

  lemma IssueOne(w: World, s: State, key: Key)
    ensures var (s', t) := Load(w, s, key);
            Step(w, s, Issue(AskFor(key))) == s'.(issued := s'.issued + [Issued(AskFor(key), [t])])
  {
    hide Load, AskFor;
    assert [key][..0] == [];
    var (s', t) := Load(w, s, key);
    assert LoadMany(w, s, [key]) == (s', [] + [t]);
    assert [] + [t] == [t];
  }

  lemma WrongAnswerShows(w: World, s: State, key: Key, t: nat)
    requires Issued(AskFor(key), [t]) in s.issued && t < |s.promises|
    requires s.promises[t].status.Settled? && s.promises[t].status.item != Alone(w.backend, key)
    ensures !AnswersAlone(w, s)
  {
    hide Alone, AskFor;
    assert AllSettled(Results(s, [t])) && Items(Results(s, [t]))[0] != AloneEach(w, AskFor(key))[0];
  }

  lemma LastStep(w: World, s: State)
    requires s.chunks != []
    ensures Step(w, s, Settle(0, true)) ==
            SucceedWith(s, 0, Replies(w.backend, ChunkKeys(s, s.chunks[0]), w.hasSingle))
  {
    hide SucceedWith, Fail, Replies, ChunkKeys, Chunks, LoadMany, KeysOf;
  }

  lemma FirstIsQueued(w: World, a: Key)
    ensures Step(w, START, Issue(AskFor(a))) == Queued(map[CacheKey(w.json, a) := 0], [a], [Issued(AskFor(a), [0])])
  {
    hide CacheKey, AskFor;
    IssueOne(w, START, a);
    var s := Queued(map[CacheKey(w.json, a) := 0], [a], [Issued(AskFor(a), [0])]);
    assert s.promises == [Promise(a, Waiting)] && s.queue == [0];
  }

  lemma SecondShares(w: World, a: Key, b: Key)
    requires CacheKey(w.json, a) == CacheKey(w.json, b)
    ensures Step(w, Step(w, START, Issue(AskFor(a))), Issue(AskFor(b))) ==
            Queued(map[CacheKey(w.json, a) := 0], [a], [Issued(AskFor(a), [0]), Issued(AskFor(b), [0])])
  {
    hide CacheKey, AskFor;
    FirstIsQueued(w, a);
    var s := Queued(map[CacheKey(w.json, a) := 0], [a], [Issued(AskFor(a), [0])]);
    IssueOne(w, s, b);
  }

  lemma SecondIsQueued(w: World, a: Key, b: Key)
    requires CacheKey(w.json, a) != CacheKey(w.json, b)
    ensures Step(w, Step(w, START, Issue(AskFor(a))), Issue(AskFor(b))) ==
            Queued(map[CacheKey(w.json, a) := 0, CacheKey(w.json, b) := 1], [a, b],
                   [Issued(AskFor(a), [0]), Issued(AskFor(b), [1])])
  {
    hide CacheKey, AskFor;
    FirstIsQueued(w, a);
    var s := Queued(map[CacheKey(w.json, a) := 0], [a], [Issued(AskFor(a), [0])]);
    IssueOne(w, s, b);
    var t := Queued(map[CacheKey(w.json, a) := 0, CacheKey(w.json, b) := 1], [a, b],
                    [Issued(AskFor(a), [0]), Issued(AskFor(b), [1])]);
    assert t.promises == s.promises + [Promise(b, Waiting)];
    assert t.queue == s.queue + [1];
  }

  /** A call that gets the promise of another lookup gets its result. */
  lemma SharedPromiseShows(json: Key -> string, hasSingle: bool, a: Key, b: Key)
    requires CacheKey(json, a) == CacheKey(json, b) && !SameLookup(a, b)
    ensures exists backend: Backend ::
              var w := World(json, backend, hasSingle); !AnswersAlone(w, Run(w, TwoCalls(a, b)))
  {
    hide Run, Step, CacheKey, Serialize, Dictionary, Dealt, Replies, AskFor, AnswersAlone;
    var backend: Backend := (id: string, params: map<string, string>) =>
      if id == a.id && params == Dictionary(a.params) then Found("") else Null;
    var w := World(json, backend, hasSingle);
    TwoCallsRun(w, a, b);
    SecondShares(w, a, b);
    var issued := [Issued(AskFor(a), [0]), Issued(AskFor(b), [0])];
    var s := Answered(w, map[CacheKey(json, a) := 0], [a], issued, Replies(backend, [a], hasSingle));
    LastStep(w, Step(w, Queued(map[CacheKey(json, a) := 0], [a], issued), Dispatch));
    OneKeyAnswered(backend, a, hasSingle);
    assert issued[1] == Issued(AskFor(b), [0]) && issued[1] in s.issued;
    WrongAnswerShows(w, s, b, 0);
  }

  /** Fresh promises for these keys, all queued. */
  function Queued(cache: map<string, nat>, keys: seq<Key>, issued: seq<Issued>): State {
    var waiting := seq(|keys|, t requires 0 <= t < |keys| => Promise(keys[t], Waiting));
    State(waiting, cache, seq(|keys|, t => t), [], issued)
  }

  /** A queue that fits a chunk is dispatched and settled. */
  lemma Answered(w: World, cache: map<string, nat>, keys: seq<Key>, issued: seq<Issued>, contents: seq<seq<Item>>)
      returns (s: State)
    requires 0 < |keys| <= MAX_BATCH_SIZE && |contents| == |GroupNames(keys)|
    ensures var dispatched := Step(w, Queued(cache, keys, issued), Dispatch);
            && |dispatched.chunks| == 1 && ChunkKeys(dispatched, dispatched.chunks[0]) == keys
            && s == SucceedWith(dispatched, 0, contents)
    ensures s.issued == issued && |s.promises| == |keys|
    ensures forall t | 0 <= t < |keys| :: s.promises[t].status == Settled(Dealt(keys, contents)[t])
  {
    hide Dealt, WithResults, GroupNames;
    var State(waiting, _, tickets, _, _) := Queued(cache, keys, issued);
    var dispatched := Step(w, Queued(cache, keys, issued), Dispatch);
    assert Chunks(tickets) == [tickets];
    assert dispatched.chunks == [tickets];
    assert ChunkKeys(dispatched, tickets) == keys;
    s := SucceedWith(dispatched, 0, contents);
    var results := Dealt(keys, contents);
    assert s.promises == WithResults(waiting, tickets, results);
    forall t | 0 <= t < |keys| ensures s.promises[t].status == Settled(results[t]) {
      assert tickets[t] == t;
      ResultsReachPromises(waiting, tickets, results, t);
    }
  }

  lemma OneKeyAnswered(backend: Backend, key: Key, hasSingle: bool)
    ensures Dealt([key], Replies(backend, [key], hasSingle)) == [Alone(backend, key)]
  {
    hide Serialize, Dictionary;
    assert [key][..0] == [];
    forall g, r | 0 <= g < |GroupNames([key])| && 0 <= r < |Group([key], GroupNames([key])[g])|
      ensures Group([key], GroupNames([key])[g])[r] == key
    {
      assert Group([key], GroupNames([key])[g])[r] in Group([key], GroupNames([key])[g]);
    }
    GroupsAnswered(backend, [key], hasSingle);
  }

  /** A call that is fetched with another's parameters gets the entity for those. */
  lemma SharedGroupShows(json: Key -> string, hasSingle: bool, a: Key, b: Key)
    requires CacheKey(json, a) != CacheKey(json, b)
    requires Serialize(a) == Serialize(b) && Dictionary(a.params) != Dictionary(b.params)
    ensures exists backend: Backend ::
              var w := World(json, backend, hasSingle); !AnswersAlone(w, Run(w, TwoCalls(a, b)))
  {
    hide Run, Step, CacheKey, Serialize, Dictionary, Dealt, Replies, AskFor, HeadsSpeak, AnswersAlone;
    hide Queued, SucceedWith, Alone;
    HeadOfTwo(a, b);
    var keys := [a, b];
    var backend := WrongHeadShows(keys, hasSingle);
    var w := World(json, backend, hasSingle);
    TwoCallsRun(w, a, b);
    SecondIsQueued(w, a, b);
    var cache: map<string, nat> := map[CacheKey(json, a) := 0, CacheKey(json, b) := 1];
    var issued := [Issued(AskFor(a), [0]), Issued(AskFor(b), [1])];
    var s := Answered(w, cache, keys, issued, Replies(backend, keys, hasSingle));
    LastStep(w, Step(w, Queued(cache, keys, issued), Dispatch));
    var k :| 0 <= k < 2 && Dealt(keys, Replies(backend, keys, hasSingle))[k] != Alone(backend, keys[k]);
    assert issued[k] == Issued(AskFor(keys[k]), [k]) && issued[k] in s.issued;
    WrongAnswerShows(w, s, keys[k], k);
  }

  lemma HeadOfTwo(a: Key, b: Key)
    requires Serialize(a) == Serialize(b) && Dictionary(a.params) != Dictionary(b.params)
    ensures !HeadsSpeak([a, b])
  {
    hide Serialize, Dictionary, GroupNames;
    var keys := [a, b];
    assert keys[..1] == [a] && [a][..0] == [];
    assert Group([a], Serialize(a)) == [] + [a];
    assert Group(keys, Serialize(a)) == [a] + [b];
    assert keys[0] in keys;
    var g := IndexOf(GroupNames(keys), Serialize(a));
    assert Group(keys, GroupNames(keys)[g])[1] == b;
  }

  /** When the backend knows only values and `null`, lists are answered by one rule whatever their
      length: the ids' entities, looked up alone, in order, without the nulls. */
  lemma ListsDropNulls(w: World, events: seq<Event>, keys: set<Key>, i: Issued)
    requires Unconfusing(w.json, keys) && CallsWithin(events, keys)
    requires var s := Run(w, events); i in s.issued && AllSettled(Results(s, i.tickets))
    requires forall id, params :: w.backend(id, params) != Undefined
    ensures Answer(i.call, Items(Results(Run(w, events), i.tickets))) ==
            if i.call.ById? then [Alone(w.backend, Key(i.call.id, []))]
            else Without(AloneEach(w, i.call), {Null})
  {
    hide Run, Alone;
    EveryCallIsAnsweredAlone(w, events, keys, i);
    var items := AloneEach(w, i.call);
    forall k | 0 <= k < |items| ensures items[k] != Undefined {
      NeverUndefined(w, KeysOf(i.call)[k]);
    }
    if i.call.ByIds? {
      UndefinedIsAbsent(items);
    }
  }

  lemma NeverUndefined(w: World, key: Key)
    requires forall id, params :: w.backend(id, params) != Undefined
    ensures Alone(w.backend, key) != Undefined
  {
  }

  lemma {:induction false} UndefinedIsAbsent(items: seq<Item>)
    requires forall k | 0 <= k < |items| :: items[k] != Undefined
    ensures Without(items, {Null, Undefined}) == Without(items, {Null})
  {
    if items != [] {
      UndefinedIsAbsent(items[1..]);
    }
  }

  /** `undefined` is where the two list rules part: a one-id list drops it, a longer list keeps it. */
  lemma OneIdListsDiffer(params: seq<Param>, id: string, item: Item)
    ensures Answer(ByIds(params, [id]), [item]) == Without([item], {Null}) <==> item != Undefined
  {
    assert [item][1..] == [];
    assert Without([item], {Null}) == if item == Null then [] else [item];
    assert Without([item], {Null, Undefined}) == if item == Null || item == Undefined then [] else [item];
  }

  /** Over every run, a call with a list of ids is answered with its ids' entities, looked up alone, without
      the nulls, if and only if it is no list of one id for which there is nothing at all. */
  lemma ListsFollowOneRuleExactly(w: World, events: seq<Event>, keys: set<Key>, i: Issued)
    requires Unconfusing(w.json, keys) && CallsWithin(events, keys)
    requires var s := Run(w, events); i in s.issued && AllSettled(Results(s, i.tickets))
    requires i.call.ByIds?
    ensures Answer(i.call, Items(Results(Run(w, events), i.tickets))) == Without(AloneEach(w, i.call), {Null})
            <==> |i.call.ids| != 1 || AloneEach(w, i.call)[0] != Undefined
  {
    hide Run, AloneEach, Without;
    EveryCallIsAnsweredAlone(w, events, keys, i);
    if |i.call.ids| == 1 {
      var item := AloneEach(w, i.call)[0];
      assert AloneEach(w, i.call) == [item] && i.call.ids == [i.call.ids[0]];
      OneIdListsDiffer(i.call.params, i.call.ids[0], item);
    }
  }

  /** A promise settles or breaks once: no later step touches it. */
  lemma SettlesOnce(w: World, s: State, e: Event, t: nat)
    requires Sound(w, s) && t < |s.promises| && !s.promises[t].status.Waiting?
    ensures t < |Step(w, s, e).promises| && Step(w, s, e).promises[t] == s.promises[t]
  {
    hide Dealt, Replies;
    match e
    case Issue(call) => LoadManyIsSound(w, s, KeysOf(call));
    case Dispatch =>
    case Settle(c, succeeds) =>
      if c < |s.chunks| {
        ChunkWaits(s, c);
        var ks := ChunkKeys(s, s.chunks[c]);
        ResultsReachPromises(s.promises, s.chunks[c], Dealt(ks, Replies(w.backend, ks, w.hasSingle)), t);
      }
  }

  /** At most one promise a cache key is waiting or settled: nothing is fetched twice unless it
      failed. */
  lemma OnePromisePerCacheKey(w: World, events: seq<Event>, t: nat, u: nat)
    requires var ps := Run(w, events).promises;
             t < u < |ps| && CacheKey(w.json, ps[t].key) == CacheKey(w.json, ps[u].key)
    ensures Run(w, events).promises[t].status.Broken? || Run(w, events).promises[u].status.Broken?
  {
    RunIsSound(w, events);
  }

  /** Over every run, nothing waits if and only if nothing is queued or in flight, however it got there. */
  lemma NothingWaitsExactly(w: World, events: seq<Event>)
    ensures var s := Run(w, events);
            (forall p | p in s.promises :: !p.status.Waiting?) <==> s.queue == [] && s.chunks == []
  {
    hide Run;
    RunIsSound(w, events);
    NothingPendingExactly(w, Run(w, events));
  }

  lemma NothingPendingExactly(w: World, s: State)
    requires Sound(w, s)
    ensures (forall p | p in s.promises :: !p.status.Waiting?) <==> s.queue == [] && s.chunks == []
  {
    hide CacheKey, Remembered, CacheRight, AllIssuedRight;
    if s.queue == [] && s.chunks == [] {
      forall p | p in s.promises ensures !p.status.Waiting? {
        var t: nat :| t < |s.promises| && s.promises[t] == p;
        assert multiset(Pending(s))[t] == 0;
      }
    } else {
      assert Pending(s) != [] by {
        if s.chunks != [] {
          assert s.chunks[0] in s.chunks;
        }
      }
      var t := Pending(s)[0];
      assert t in multiset(Pending(s));
      assert s.promises[t] in s.promises && s.promises[t].status.Waiting?;
    }
  }

  /** No promise is lost: one more dispatch, and the end of every chunk then in flight, in any order and
      successful or not, leave nothing waiting. */
  lemma NothingIsLost(w: World, s: State, ends: seq<(nat, bool)>)
    requires Sound(w, s)
    requires |ends| >= |Step(w, s, Dispatch).chunks|
    ensures forall p | p in SettleAll(w, Step(w, s, Dispatch), ends).promises :: !p.status.Waiting?
  {
    DispatchIsSound(w, s);
    AllSettle(w, Step(w, s, Dispatch), ends);
  }

  /** The chunks in flight end: one of them at a time, picked by a number, and each as said. */
  function SettleAll(w: World, s: State, ends: seq<(nat, bool)>): State
    decreases |ends|
  {
    if s.chunks == [] || ends == [] then s
    else SettleAll(w, Step(w, s, Settle(ends[0].0 % |s.chunks|, ends[0].1)), ends[1..])
  }

  lemma {:induction false} AllSettle(w: World, s: State, ends: seq<(nat, bool)>)
    requires Sound(w, s) && s.queue == [] && |ends| >= |s.chunks|
    ensures forall p | p in SettleAll(w, s, ends).promises :: !p.status.Waiting?
    decreases |ends|
  {
    hide Sound, WithResults, WithFailures, CacheKey, Dealt, Replies, KeyOf;
    if s.chunks == [] {
      NothingPendingExactly(w, s);
    } else {
      var c := ends[0].0 % |s.chunks|;
      StepIsSound(w, s, Settle(c, ends[0].1));
      AllSettle(w, Step(w, s, Settle(c, ends[0].1)), ends[1..]);
    }
  }

  // ---------------------------------------------------------------- how promises end

  predicate IsSettled(s: State, t: nat) { t < |s.promises| && s.promises[t].status.Settled? }

  predicate IsBroken(s: State, t: nat) { t < |s.promises| && s.promises[t].status.Broken? }

  /** The event ends a chunk in flight that holds the promise, successfully or not. */
  predicate Ends(s: State, e: Event, succeeds: bool, t: nat) {
    e.Settle? && e.succeeds == succeeds && e.chunk < |s.chunks| && t in s.chunks[e.chunk]
  }

  /** At some point of the run a chunk that held the promise ended like this. */
  ghost predicate EndedBy(w: World, events: seq<Event>, succeeds: bool, t: nat) {
    exists n | 0 <= n < |events| :: Ends(Run(w, events[..n]), events[n], succeeds, t)
  }

  /** A step settles the promises of the chunk that it ends successfully, breaks those of the chunk that it
      ends otherwise, and no others. */
  lemma StepEnds(w: World, s: State, e: Event, t: nat)
    requires Sound(w, s)
    ensures IsSettled(Step(w, s, e), t) <==> IsSettled(s, t) || Ends(s, e, true, t)
    ensures IsBroken(Step(w, s, e), t) <==> IsBroken(s, t) || Ends(s, e, false, t)
  {
    hide Dealt, Replies, CacheKey, WithResults, KeyOf;
    match e
    case Issue(call) => LoadManyIsSound(w, s, KeysOf(call));
    case Dispatch =>
    case Settle(c, succeeds) =>
      if c < |s.chunks| {
        SuccessEnds(s, c, Replies(w.backend, ChunkKeys(s, s.chunks[c]), w.hasSingle), t);
        ChunkWaits(s, c);
      }
  }

  lemma SuccessEnds(s: State, c: nat, contents: seq<seq<Item>>, t: nat)
    requires PendingRight(s) && c < |s.chunks| && |contents| == |GroupNames(ChunkKeys(s, s.chunks[c]))|
    ensures IsSettled(SucceedWith(s, c, contents), t) <==> IsSettled(s, t) || t in s.chunks[c]
    ensures IsBroken(SucceedWith(s, c, contents), t) <==> IsBroken(s, t)
  {
    hide Dealt, WithResults, GroupNames;
    ChunkWaits(s, c);
    if t < |s.promises| {
      ResultsReachPromises(s.promises, s.chunks[c], Dealt(ChunkKeys(s, s.chunks[c]), contents), t);
    }
  }

  /** Over every run, a promise is settled if and only if a chunk that held it ended successfully, and
      broken if and only if one ended otherwise. */
  lemma {:induction false} PromisesEndExactly(w: World, events: seq<Event>, t: nat)
    ensures IsSettled(Run(w, events), t) <==> EndedBy(w, events, true, t)
    ensures IsBroken(Run(w, events), t) <==> EndedBy(w, events, false, t)
  {
    hide IsSettled, IsBroken, Ends, Step, EndedBy, Sound;
    if events == [] {
      NothingEnded(w, t);
    } else {
      var init, e := events[..|events| - 1], events[|events| - 1];
      PromisesEndExactly(w, init, t);
      RunIsSound(w, init);
      StepEnds(w, Run(w, init), e, t);
      EndedByGrows(w, init, e, true, t);
      EndedByGrows(w, init, e, false, t);
      assert events == init + [e];
    }
  }

  lemma NothingEnded(w: World, t: nat)
    ensures !IsSettled(Run(w, []), t) && !IsBroken(Run(w, []), t)
    ensures !EndedBy(w, [], true, t) && !EndedBy(w, [], false, t)
  {
  }

  lemma EndedByGrows(w: World, init: seq<Event>, e: Event, succeeds: bool, t: nat)
    ensures EndedBy(w, init + [e], succeeds, t) <==>
            EndedBy(w, init, succeeds, t) || Ends(Run(w, init), e, succeeds, t)
  {
    hide Run, Ends;
    var events := init + [e];
    assert events[..|init|] == init && events[|init|] == e;
    assert forall n | 0 <= n < |init| :: events[..n] == init[..n] && events[n] == init[n];
    if EndedBy(w, init, succeeds, t) {
      var n :| 0 <= n < |init| && Ends(Run(w, init[..n]), init[n], succeeds, t);
      assert Ends(Run(w, events[..n]), events[n], succeeds, t);
    }
  }

  /** Once nothing is queued or in flight, a call has all its results if and only if no chunk with one of its
      promises failed; after a run in which none fails, every call has. */
  lemma CallsSettleExactly(w: World, events: seq<Event>, i: Issued)
    requires var s := Run(w, events); s.queue == [] && s.chunks == [] && i in s.issued
    ensures AllSettled(Results(Run(w, events), i.tickets)) <==>
            forall t | t in i.tickets :: !EndedBy(w, events, false, t)
    ensures (forall e | e in events && e.Settle? :: e.succeeds) ==> AllSettled(Results(Run(w, events), i.tickets))
  {
    hide Run, Sound;
    RunIsSound(w, events);
    NothingWaitsExactly(w, events);
    forall t: nat ensures IsBroken(Run(w, events), t) <==> EndedBy(w, events, false, t) {
      PromisesEndExactly(w, events, t);
    }
    SettledUnlessBroken(w, Run(w, events), i);
  }

  lemma SettledUnlessBroken(w: World, s: State, i: Issued)
    requires Sound(w, s) && i in s.issued && forall p | p in s.promises :: !p.status.Waiting?
    ensures AllSettled(Results(s, i.tickets)) <==> forall t | t in i.tickets :: !IsBroken(s, t)
  {
    assert IssuedRight(w, s.promises, i);
    forall k | 0 <= k < |i.tickets| ensures Results(s, i.tickets)[k].Settled? <==> !IsBroken(s, i.tickets[k]) {
      assert s.promises[i.tickets[k]] in s.promises;
    }
    if AllSettled(Results(s, i.tickets)) {
      forall t | t in i.tickets ensures !IsBroken(s, t) {
        var k :| 0 <= k < |i.tickets| && i.tickets[k] == t;
      }
    }
  }

  /** The key has a promise that is not broken. */
  ghost predicate HasPromise(w: World, s: State, key: Key) {
    exists t: nat :: t < |s.promises| && !s.promises[t].status.Broken?
      && CacheKey(w.json, s.promises[t].key) == CacheKey(w.json, key)
  }

  /** The call just made was handed no broken promise: for each of its keys it has the promise that waited or
      was settled, and where there was none, a new one. */
  ghost predicate AsksAgain(w: World, s: State, s': State, call: Call) {
    && |s'.issued| == |s.issued| + 1 && s.promises <= s'.promises
    && var ts := s'.issued[|s.issued|].tickets;
       && |ts| == |KeysOf(call)|
       && forall k | 0 <= k < |ts| ::
            && ts[k] < |s'.promises| && !s'.promises[ts[k]].status.Broken?
            && (ts[k] >= |s.promises| <==> !HasPromise(w, s, KeysOf(call)[k]))
  }

  /** Over every run, keys of failed chunks are fetched again. */
  lemma BrokenIsAskedAgain(w: World, events: seq<Event>, call: Call)
    ensures AsksAgain(w, Run(w, events), Run(w, events + [Issue(call)]), call)
  {
    hide Run, Step, AsksAgain, Sound;
    RunGrows(w, events, Issue(call));
    RunIsSound(w, events);
    IssueAsksAgain(w, Run(w, events), call);
  }

  lemma IssueAsksAgain(w: World, s: State, call: Call)
    requires Sound(w, s)
    ensures AsksAgain(w, s, Step(w, s, Issue(call)), call)
  {
    hide CacheKey, LoadMany, KeysOf, AllIssuedRight, PendingRight, SmallChunks;
    var ks := KeysOf(call);
    LoadManyIsSound(w, s, ks);
    var (s', ts) := LoadMany(w, s, ks);
    forall k | 0 <= k < |ts| ensures ts[k] >= |s.promises| <==> !HasPromise(w, s, ks[k]) {
      if ts[k] < |s.promises| {
        assert s'.promises[ts[k]] == s.promises[ts[k]];
      }
      if HasPromise(w, s, ks[k]) {
        var t: nat :| t < |s.promises| && !s.promises[t].status.Broken?
          && CacheKey(w.json, s.promises[t].key) == CacheKey(w.json, ks[k]);
        assert s'.promises[t] == s.promises[t];
      }
    }
  }
}
