/** Runs of the two loaders that `createBatchLoaders` builds on one `multipleLoader`
    (`src/lib/loaders/batchLoader.ts`), as `saleLoader` and `salesLoader` are.  For a call it has answered
    before, `multipleLoader` hands out the promise it remembers, and so the very array that the batch
    function reversed and popped. */
module LoaderPairs {
  import opened BatchLoader
  import opened LoaderRuns
  import opened Params

  datatype Side = One | Many

  /** What both loaders are built from; they differ in whether they have a single loader. */
  datatype Setup = Setup(json: Key -> string, backend: Backend, hasSingle: Side -> bool) {
    function World(side: Side): World { LoaderRuns.World(json, backend, hasSingle(side)) }
  }

  /** What the arrays hold now that `multipleLoader` has handed out and batches have been dealt from. */
  type Memory = map<Request, seq<Item>>

  datatype Pair = Pair(one: State, many: State, memory: Memory) {
    function At(side: Side): State { if side.One? then one else many }

    function With(side: Side, s: State, memory: Memory): Pair {
      if side.One? then Pair(s, many, memory) else Pair(one, s, memory)
    }
  }

  datatype PairEvent = On(side: Side, event: Event)

  const PAIR_START := Pair(START, START, map[])

  // ---------------------------------------------------------------- steps

  /** What the arrays hold that the calls for a chunk resolve with. */
  function Contents(memory: Memory, w: World, keys: seq<Key>): (contents: seq<seq<Item>>)
    ensures |contents| == |GroupNames(keys)|
  {
    seq(|GroupNames(keys)|, g requires 0 <= g < |GroupNames(keys)| =>
      var call := CallFor(keys, w.hasSingle, g);
      if call.Multiple? && call in memory then memory[call] else ReplyTo(w.backend, call))
  }

  /** What is left of them once the first `n` groups have been dealt. */
  function Leftovers(memory: Memory, w: World, keys: seq<Key>, contents: seq<seq<Item>>, n: nat): Memory
    requires n <= |GroupNames(keys)| == |contents|
  {
    if n == 0 then memory
    else
      var call := CallFor(keys, w.hasSingle, n - 1);
      var before := Leftovers(memory, w, keys, contents, n - 1);
      if call.Multiple? then
        before[call := Reversed(Drop(contents[n - 1], |Group(keys, GroupNames(keys)[n - 1])|))]
      else before
  }

  /** A step of one loader.  Calls that fail are not remembered. */
  function SideStep(w: World, s: State, memory: Memory, e: Event): (State, Memory) {
    if e.Settle? && e.succeeds && e.chunk < |s.chunks| then
      var keys := ChunkKeys(s, s.chunks[e.chunk]);
      var contents := Contents(memory, w, keys);
      (SucceedWith(s, e.chunk, contents), Leftovers(memory, w, keys, contents, |contents|))
    else
      (Step(w, s, e), memory)
  }

  function PairStep(u: Setup, p: Pair, e: PairEvent): Pair {
    var (s, memory) := SideStep(u.World(e.side), p.At(e.side), p.memory, e.event);
    p.With(e.side, s, memory)
  }

  function PairRun(u: Setup, events: seq<PairEvent>): Pair {
    if events == [] then PAIR_START
    else PairStep(u, PairRun(u, events[..|events| - 1]), events[|events| - 1])
  }

  /** The keys asked for on each side. */
  type Keys = Side -> set<Key>

  ghost predicate AskedWithin(events: seq<PairEvent>, keys: Keys) {
    forall e | e in events && e.event.Issue? :: forall key | key in KeysOf(e.event.call) :: key in keys(e.side)
  }

  // ---------------------------------------------------------------- what arrays have been dealt from

  /** Keys that may be fetched in one call. */
  predicate OneCall(group: seq<Key>, keys: set<Key>) {
    && group != []
    && (forall k | k in group :: k in keys && Serialize(k) == Serialize(group[0]))
  }

  /** The array for the call has been dealt from by one side, which has settled the call's first key. */
  ghost predicate Claimed(w: World, s: State, call: Request, keys: set<Key>) {
    call.Multiple? &&
    exists group, t: nat ::
      && OneCall(group, keys) && RequestFor(group, w.hasSingle) == call
      && t < |s.promises| && s.promises[t].key == group[0] && s.promises[t].status.Settled?
  }

  ghost predicate MemoryRight(u: Setup, p: Pair, keys: Keys) {
    forall call | call in p.memory ::
      exists side: Side :: Claimed(u.World(side), p.At(side), call, keys(side))
  }

  ghost predicate CallsKnown(s: State, keys: set<Key>) {
    forall i | i in s.issued :: forall key | key in KeysOf(i.call) :: key in keys
  }

  ghost predicate SideRight(w: World, s: State, keys: set<Key>) {
    Invariant(w, s, keys) && CallsKnown(s, keys)
  }

  ghost predicate PairRight(u: Setup, p: Pair, keys: Keys) {
    && (forall side: Side :: SideRight(u.World(side), p.At(side), keys(side)))
    && MemoryRight(u, p, keys)
  }

  /** The sides have at most one key in common, and that without parameters, where one of them has a single
      loader for it. */
  ghost predicate NothingShared(hasSingle: Side -> bool, keys: Keys) {
    && (forall k | k in keys(One) && k in keys(Many) :: k.params == [] && (hasSingle(One) || hasSingle(Many)))
    && (forall a, b | a in keys(One) && a in keys(Many) && b in keys(One) && b in keys(Many) :: a == b)
  }

  ghost predicate PairUnconfusing(json: Key -> string, keys: Keys) {
    forall side: Side :: Unconfusing(json, keys(side))
  }

  // ---------------------------------------------------------------- no array is dealt from twice

  lemma CallTellsGroup(group: seq<Key>, hasSingle: bool, group': seq<Key>, hasSingle': bool)
    requires group != [] && group' != []
    requires RequestFor(group, hasSingle) == RequestFor(group', hasSingle') && RequestFor(group, hasSingle).Multiple?
    ensures group[0] == group'[0] && |group| == |group'|
    ensures forall r | 0 <= r < |group| :: group[r].id == group'[r].id
  {
    assert Ids(group) == Ids(group');
    forall r | 0 <= r < |group| ensures group[r].id == group'[r].id {
      assert Ids(group)[r] == Ids(group')[r];
    }
  }

  /** The promise in flight for a member of a chunk's group. */
  lemma GroupTicket(w: World, s: State, keys: set<Key>, c: nat, name: string, r: nat) returns (i: nat)
    requires Invariant(w, s, keys) && c < |s.chunks|
    requires r < |Group(ChunkKeys(s, s.chunks[c]), name)|
    ensures i < |s.chunks[c]| && Rank(ChunkKeys(s, s.chunks[c]), i) == r
    ensures var t := s.chunks[c][i];
            && t < |s.promises| && s.promises[t].status.Waiting?
            && s.promises[t].key == Group(ChunkKeys(s, s.chunks[c]), name)[r]
  {
    hide Serialize, Rank, Group, CacheKey;
    ChunkWaits(s, c);
    i := GroupMemberIsKey(ChunkKeys(s, s.chunks[c]), name, r);
    assert s.chunks[c][i] in s.chunks[c];
  }

  /** Of two unbroken promises for one key there is only one. */
  lemma SameTicket(w: World, s: State, keys: set<Key>, t: nat, t': nat)
    requires Invariant(w, s, keys) && t < |s.promises| && t' < |s.promises|
    requires !s.promises[t].status.Broken? && !s.promises[t'].status.Broken?
    requires s.promises[t].key == s.promises[t'].key
    ensures t == t'
  {
  }

  lemma NotClaimedHere(w: World, s: State, keys: set<Key>, c: nat, g: nat)
    requires Invariant(w, s, keys) && c < |s.chunks| && g < |GroupNames(ChunkKeys(s, s.chunks[c]))|
    ensures !Claimed(w, s, CallFor(ChunkKeys(s, s.chunks[c]), w.hasSingle, g), keys)
  {
    hide Serialize, Group, GroupNames, RequestFor, Rank, Invariant;
    var ks := ChunkKeys(s, s.chunks[c]);
    var group, call := Group(ks, GroupNames(ks)[g]), CallFor(ks, w.hasSingle, g);
    GroupIsNotEmpty(ks, g);
    var i := GroupTicket(w, s, keys, c, GroupNames(ks)[g], 0);
    forall group', t: nat |
        && call.Multiple? && OneCall(group', keys) && RequestFor(group', w.hasSingle) == call
        && t < |s.promises| && s.promises[t].key == group'[0]
      ensures !s.promises[t].status.Settled?
    {
      CallTellsGroup(group, w.hasSingle, group', w.hasSingle);
      if s.promises[t].status.Settled? {
        SameTicket(w, s, keys, t, s.chunks[c][i]);
      }
    }
  }

  lemma PositionsCount<T>(xs: seq<T>, i: nat, j: nat)
    requires i < j < |xs| && xs[i] == xs[j]
    ensures multiset(xs)[xs[i]] >= 2
  {
    assert xs == xs[..j] + [xs[j]] + xs[j + 1..];
    assert xs[..j][i] == xs[i];
    assert xs[i] in multiset(xs[..j]);
  }

  lemma ChunkTicketsDiffer(s: State, c: nat, i: nat, j: nat)
    requires PendingRight(s) && c < |s.chunks| && i < |s.chunks[c]| && j < |s.chunks[c]| && i != j
    ensures s.chunks[c][i] != s.chunks[c][j]
  {
    var chunk := s.chunks[c];
    RemoveChunk(s.chunks, c);
    assert 1 >= multiset(Pending(s))[chunk[i]] >= multiset(chunk)[chunk[i]];
    if chunk[i] == chunk[j] {
      PositionsCount(chunk, if i < j then i else j, if i < j then j else i);
    }
  }

  lemma GroupKeysDiffer(w: World, s: State, keys: set<Key>, c: nat, name: string)
    requires Invariant(w, s, keys) && c < |s.chunks| && |Group(ChunkKeys(s, s.chunks[c]), name)| > 1
    ensures var group := Group(ChunkKeys(s, s.chunks[c]), name); group[0] != group[1]
  {
    hide Serialize, Group, Rank, CacheKey;
    var i := GroupTicket(w, s, keys, c, name, 0);
    var j := GroupTicket(w, s, keys, c, name, 1);
    var t, t' := s.chunks[c][i], s.chunks[c][j];
    ChunkTicketsDiffer(s, c, i, j);
    if s.promises[t].key == s.promises[t'].key {
      SameTicket(w, s, keys, t, t');
    }
  }

  /** A group of a chunk is a call's keys. */
  lemma ChunkGroupIsOneCall(w: World, s: State, keys: set<Key>, c: nat, g: nat)
    requires Invariant(w, s, keys) && c < |s.chunks| && g < |GroupNames(ChunkKeys(s, s.chunks[c]))|
    ensures var ks := ChunkKeys(s, s.chunks[c]); OneCall(Group(ks, GroupNames(ks)[g]), keys)
  {
    hide Serialize, GroupNames, CacheKey;
    var ks := ChunkKeys(s, s.chunks[c]);
    GroupIsNotEmpty(ks, g);
    ChunkWaits(s, c);
    ChunkKeysKnown(w, s, s.chunks[c], keys);
    var group := Group(ks, GroupNames(ks)[g]);
    assert group[0] in group;
  }

  /** Two calls on different sides are different where nothing is shared. */
  lemma CallsDiffer(hasSingle: Side -> bool, keys: Keys, group1: seq<Key>, group2: seq<Key>)
    requires NothingShared(hasSingle, keys) && OneCall(group1, keys(One)) && OneCall(group2, keys(Many))
    requires (|group1| > 1 ==> group1[0] != group1[1]) || (|group2| > 1 ==> group2[0] != group2[1])
    requires RequestFor(group1, hasSingle(One)).Multiple? || RequestFor(group2, hasSingle(Many)).Multiple?
    ensures RequestFor(group1, hasSingle(One)) != RequestFor(group2, hasSingle(Many))
  {
    if RequestFor(group1, hasSingle(One)) == RequestFor(group2, hasSingle(Many)) {
      CallTellsGroup(group1, hasSingle(One), group2, hasSingle(Many));
      assert group1[0] in group1 && group2[0] in group2;
      if |group1| > 1 {
        assert group1[1] in group1 && group2[1] in group2;
        BareKeysSerializeAlike(group1[0], group1[1]);
        BareKeysSerializeAlike(group2[0], group2[1]);
      }
    }
  }

  lemma BareKeysSerializeAlike(a: Key, b: Key)
    requires Serialize(a) == Serialize(b) && a.params == []
    ensures b.params == []
  {
    SerializedIsEmpty(a);
    SerializedIsEmpty(b);
  }

  function Other(side: Side): Side { if side.One? then Many else One }

  /** A call about to be dealt has not been dealt on the other side. */
  lemma NotClaimedThere(u: Setup, p: Pair, keys: Keys, side: Side, c: nat, g: nat)
    requires PairRight(u, p, keys) && NothingShared(u.hasSingle, keys)
    requires var s := p.At(side); c < |s.chunks| && g < |GroupNames(ChunkKeys(s, s.chunks[c]))|
    ensures var s, there := p.At(side), Other(side);
            !Claimed(u.World(there), p.At(there), CallFor(ChunkKeys(s, s.chunks[c]), u.hasSingle(side), g), keys(there))
  {
    hide Serialize, GroupNames, Group, RequestFor, NothingShared, Invariant, MemoryRight;
    var s, w, there := p.At(side), u.World(side), Other(side);
    assert SideRight(w, s, keys(side));
    var ks := ChunkKeys(s, s.chunks[c]);
    var group := Group(ks, GroupNames(ks)[g]);
    ChunkGroupIsOneCall(w, s, keys(side), c, g);
    if |group| > 1 {
      GroupKeysDiffer(w, s, keys(side), c, GroupNames(ks)[g]);
    }
    if RequestFor(group, u.hasSingle(side)).Multiple? {
      forall group' | OneCall(group', keys(there))
        ensures RequestFor(group', u.hasSingle(there)) != RequestFor(group, u.hasSingle(side))
      {
        if side.One? {
          CallsDiffer(u.hasSingle, keys, group, group');
        } else {
          CallsDiffer(u.hasSingle, keys, group', group);
        }
      }
    }
  }

  lemma BothSides(u: Setup, p: Pair, keys: Keys, side: Side, call: Request)
    requires MemoryRight(u, p, keys)
    requires !Claimed(u.World(side), p.At(side), call, keys(side))
    requires !Claimed(u.World(Other(side)), p.At(Other(side)), call, keys(Other(side)))
    ensures call !in p.memory
  {
    hide Claimed;
    forall x: Side ensures !Claimed(u.World(x), p.At(x), call, keys(x)) {
      assert x == side || x == Other(side);
    }
  }

  /** A chunk finds all its arrays as the backend filled them. */
  lemma ContentsAreFresh(u: Setup, p: Pair, keys: Keys, side: Side, c: nat)
    requires PairRight(u, p, keys) && NothingShared(u.hasSingle, keys) && c < |p.At(side).chunks|
    ensures var w, ks := u.World(side), ChunkKeys(p.At(side), p.At(side).chunks[c]);
            Contents(p.memory, w, ks) == Replies(w.backend, ks, w.hasSingle)
  {
    hide Serialize, GroupNames, Group, RequestFor, NothingShared, Invariant, ReplyTo;
    var s, w := p.At(side), u.World(side);
    var ks := ChunkKeys(s, s.chunks[c]);
    forall g | 0 <= g < |GroupNames(ks)|
      ensures Contents(p.memory, w, ks)[g] == Replies(w.backend, ks, w.hasSingle)[g]
    {
      assert SideRight(w, s, keys(side));
      NotClaimedHere(w, s, keys(side), c, g);
      NotClaimedThere(u, p, keys, side, c, g);
      BothSides(u, p, keys, side, CallFor(ks, w.hasSingle, g));
    }
  }

  // ---------------------------------------------------------------- steps keep both sides right

  /** Each side steps as it would with fresh replies. */
  lemma SideStepsAlone(u: Setup, p: Pair, keys: Keys, side: Side, e: Event)
    requires PairRight(u, p, keys) && NothingShared(u.hasSingle, keys)
    ensures SideStep(u.World(side), p.At(side), p.memory, e).0 == Step(u.World(side), p.At(side), e)
  {
    hide PairRight, NothingShared, Contents, Replies, SucceedWith, Fail, Leftovers, LoadMany, Chunks;
    if e.Settle? && e.succeeds && e.chunk < |p.At(side).chunks| {
      ContentsAreFresh(u, p, keys, side, e.chunk);
    }
  }

  lemma StepKeepsSide(w: World, s: State, e: Event, keys: set<Key>)
    requires SideRight(w, s, keys) && Unconfusing(w.json, keys)
    requires e.Issue? ==> forall key | key in KeysOf(e.call) :: key in keys
    ensures SideRight(w, Step(w, s, e), keys)
  {
    hide Invariant, Unconfusing, KeysOf;
    match e
    case Issue(call) =>
      IssueKeeps(w, s, call, keys);
      LoadManyIssuesNothing(w, s, KeysOf(call));
    case Dispatch => DispatchKeeps(w, s, keys);
    case Settle(c, succeeds) => SettleKeeps(w, s, c, succeeds, keys);
  }

  lemma ClaimStays(w: World, s: State, e: Event, keys: set<Key>, call: Request)
    requires Invariant(w, s, keys) && Claimed(w, s, call, keys)
    requires e.Issue? ==> forall key | key in KeysOf(e.call) :: key in keys
    ensures Claimed(w, Step(w, s, e), call, keys)
  {
    hide Sound, Step, KeysOf;
    var group, t: nat :|
      && OneCall(group, keys) && RequestFor(group, w.hasSingle) == call
      && t < |s.promises| && s.promises[t].key == group[0] && s.promises[t].status.Settled?;
    SettlesOnce(w, s, e, t);
    assert Step(w, s, e).promises[t] == s.promises[t];
  }

  lemma {:induction false} LeftoversAreCalls(memory: Memory, w: World, keys: seq<Key>, contents: seq<seq<Item>>,
                                             n: nat, call: Request)
    requires n <= |GroupNames(keys)| == |contents| && call in Leftovers(memory, w, keys, contents, n)
    ensures call in memory || exists g | 0 <= g < n :: CallFor(keys, w.hasSingle, g) == call
    ensures call in memory || call.Multiple?
  {
    hide GroupNames, CallFor, Group, Reversed, Drop;
    if n > 0 && call in Leftovers(memory, w, keys, contents, n - 1) {
      LeftoversAreCalls(memory, w, keys, contents, n - 1, call);
    }
  }

  /** A call that has been dealt is claimed. */
  lemma DealtIsClaimed(w: World, s: State, c: nat, g: nat, contents: seq<seq<Item>>, keys: set<Key>)
    requires Invariant(w, s, keys) && c < |s.chunks|
    requires var ks := ChunkKeys(s, s.chunks[c]);
             |contents| == |GroupNames(ks)| && g < |GroupNames(ks)| && CallFor(ks, w.hasSingle, g).Multiple?
    ensures Claimed(w, SucceedWith(s, c, contents), CallFor(ChunkKeys(s, s.chunks[c]), w.hasSingle, g), keys)
  {
    hide Invariant, Serialize, GroupNames, Group, RequestFor, Rank, Dealt, WithResults, OneCall;
    var ks := ChunkKeys(s, s.chunks[c]);
    GroupIsNotEmpty(ks, g);
    ChunkGroupIsOneCall(w, s, keys, c, g);
    var i := GroupTicket(w, s, keys, c, GroupNames(ks)[g], 0);
    var t := s.chunks[c][i];
    ResultsReachPromises(s.promises, s.chunks[c], Dealt(ks, contents), t);
    assert t in s.chunks[c];
    assert SucceedWith(s, c, contents).promises[t].status.Settled?;
  }

  lemma MemoryStaysRight(u: Setup, p: Pair, keys: Keys, side: Side, e: Event)
    requires PairRight(u, p, keys) && NothingShared(u.hasSingle, keys)
    requires e.Issue? ==> forall key | key in KeysOf(e.call) :: key in keys(side)
    ensures MemoryRight(u, PairStep(u, p, On(side, e)), keys)
  {
    hide Claimed, Invariant, Step, SucceedWith, NothingShared, KeysOf, GroupNames, CallFor, Leftovers, Contents;
    var s, w := p.At(side), u.World(side);
    var p' := PairStep(u, p, On(side, e));
    SideStepsAlone(u, p, keys, side, e);
    assert p'.At(side) == Step(w, s, e) && p'.At(Other(side)) == p.At(Other(side));
    assert SideRight(w, s, keys(side));
    forall call | call in p'.memory
      ensures exists x: Side :: Claimed(u.World(x), p'.At(x), call, keys(x))
    {
      if call in p.memory {
        var x: Side :| Claimed(u.World(x), p.At(x), call, keys(x));
        if x == side {
          ClaimStays(w, s, e, keys(side), call);
        }
        assert Claimed(u.World(x), p'.At(x), call, keys(x));
      } else {
        var ks := ChunkKeys(s, s.chunks[e.chunk]);
        var contents := Contents(p.memory, w, ks);
        LeftoversAreCalls(p.memory, w, ks, contents, |contents|, call);
        var g :| 0 <= g < |GroupNames(ks)| && CallFor(ks, w.hasSingle, g) == call;
        DealtIsClaimed(w, s, e.chunk, g, contents, keys(side));
        assert Claimed(u.World(side), p'.At(side), call, keys(side));
      }
    }
  }

  lemma PairStepKeeps(u: Setup, p: Pair, keys: Keys, e: PairEvent)
    requires PairRight(u, p, keys) && NothingShared(u.hasSingle, keys) && PairUnconfusing(u.json, keys)
    requires e.event.Issue? ==> forall key | key in KeysOf(e.event.call) :: key in keys(e.side)
    ensures PairRight(u, PairStep(u, p, e), keys)
  {
    hide SideRight, Step, SideStep, NothingShared, KeysOf, Unconfusing;
    SideStepsAlone(u, p, keys, e.side, e.event);
    StepKeepsSide(u.World(e.side), p.At(e.side), e.event, keys(e.side));
    MemoryStaysRight(u, p, keys, e.side, e.event);
    var p' := PairStep(u, p, e);
    forall side: Side ensures SideRight(u.World(side), p'.At(side), keys(side)) {
      assert side == e.side || p'.At(side) == p.At(side);
    }
  }

  lemma StartIsRight(u: Setup, keys: Keys)
    ensures PairRight(u, PAIR_START, keys)
  {
    forall side: Side ensures SideRight(u.World(side), PAIR_START.At(side), keys(side)) {
      StartIsSideRight(u.World(side), keys(side));
    }
  }

  lemma StartIsSideRight(w: World, keys: set<Key>)
    ensures SideRight(w, START, keys)
  {
    assert Pending(START) == [];
  }

  lemma {:induction false} PairRunKeeps(u: Setup, events: seq<PairEvent>, keys: Keys)
    requires NothingShared(u.hasSingle, keys) && PairUnconfusing(u.json, keys) && AskedWithin(events, keys)
    ensures PairRight(u, PairRun(u, events), keys)
  {
    hide PairRight, PairStep, NothingShared, PairUnconfusing, KeysOf;
    if events == [] {
      StartIsRight(u, keys);
    } else {
      var init, e := events[..|events| - 1], events[|events| - 1];
      assert e in events;
      PairRunKeeps(u, init, keys);
      PairStepKeeps(u, PairRun(u, init), keys, e);
    }
  }

  // ---------------------------------------------------------------- whole runs

  ghost predicate PairAnswersAlone(u: Setup, p: Pair) {
    forall side: Side :: AnswersAlone(u.World(side), p.At(side))
  }

  /** Whatever the backend and the run of calls for given keys, both loaders answer as if each id were
      looked up alone, if and only if the keys of each are unconfusing and they share nothing. */
  lemma PairsAnswerAloneExactly(json: Key -> string, hasSingle: Side -> bool, keys: Keys)
    ensures (forall backend: Backend, events: seq<PairEvent> | AskedWithin(events, keys) ::
               var u := Setup(json, backend, hasSingle); PairAnswersAlone(u, PairRun(u, events)))
            <==> PairUnconfusing(json, keys) && NothingShared(hasSingle, keys)
  {
    hide PairRun, PairAnswersAlone, NothingShared, Unconfusing, AskedWithin;
    if PairUnconfusing(json, keys) && NothingShared(hasSingle, keys) {
      forall backend: Backend, events: seq<PairEvent> | AskedWithin(events, keys)
        ensures var u := Setup(json, backend, hasSingle); PairAnswersAlone(u, PairRun(u, events))
      {
        PairRunAnswers(Setup(json, backend, hasSingle), events, keys);
      }
    } else if side: Side :| !Unconfusing(json, keys(side)) {
      ConfusionShows(json, hasSingle, keys, side);
    } else {
      SharingShows(json, hasSingle, keys);
    }
  }

  lemma PairRunAnswers(u: Setup, events: seq<PairEvent>, keys: Keys)
    requires NothingShared(u.hasSingle, keys) && PairUnconfusing(u.json, keys) && AskedWithin(events, keys)
    ensures PairAnswersAlone(u, PairRun(u, events))
  {
    hide PairRun, NothingShared, Invariant, Unconfusing, Results, AloneEach, KeysOf;
    PairRunKeeps(u, events, keys);
    forall side: Side ensures AnswersAlone(u.World(side), PairRun(u, events).At(side)) {
      var w, s := u.World(side), PairRun(u, events).At(side);
      assert SideRight(w, s, keys(side));
      forall i | i in s.issued && AllSettled(Results(s, i.tickets))
        ensures Items(Results(s, i.tickets)) == AloneEach(w, i.call)
      {
        StateAnswersAlone(w, s, keys(side), i);
      }
    }
  }

  // ---------------------------------------------------------------- runs that go wrong

  function OnSide(side: Side, events: seq<Event>): (es: seq<PairEvent>)
    ensures |es| == |events| && forall n | 0 <= n < |events| :: es[n] == On(side, events[n])
  {
    seq(|events|, n requires 0 <= n < |events| => On(side, events[n]))
  }

  lemma PairRunGrows(u: Setup, events: seq<PairEvent>, e: PairEvent)
    ensures PairRun(u, events + [e]) == PairStep(u, PairRun(u, events), e)
  {
    assert (events + [e])[..|events|] == events;
  }

  /** After some steps, a run of one side until a chunk is first settled changes nothing else. */
  lemma {:induction false} OneSideRun(u: Setup, before: seq<PairEvent>, side: Side, events: seq<Event>)
    requires PairRun(u, before).At(side) == START
    requires forall e | e in events :: !e.Settle?
    ensures var p, p' := PairRun(u, before), PairRun(u, before + OnSide(side, events));
            p' == p.With(side, LoaderRuns.Run(u.World(side), events), p.memory)
  {
    hide PairRun, Step;
    if events == [] {
      assert before + OnSide(side, []) == before;
      RunOfNothing(u.World(side));
    } else {
      var init, e := events[..|events| - 1], events[|events| - 1];
      OneSideRun(u, before, side, init);
      assert e in events;
      PairRunGrows(u, before + OnSide(side, init), On(side, e));
      assert before + OnSide(side, events) == before + OnSide(side, init) + [On(side, e)];
      RunGrows(u.World(side), init, e);
      assert events == init + [e];
    }
  }

  /** Two keys asked for on one side, dispatched, and settled. */
  lemma TwoCallsOnSide(u: Setup, before: seq<PairEvent>, side: Side, a: Key, b: Key)
    requires PairRun(u, before).At(side) == START
    ensures var asked := [Issue(AskFor(a)), Issue(AskFor(b)), Dispatch];
            var p := PairRun(u, before);
            var dispatched := LoaderRuns.Run(u.World(side), asked);
            PairRun(u, before + OnSide(side, TwoCalls(a, b))) ==
              PairStep(u, p.With(side, dispatched, p.memory), On(side, Settle(0, true)))
  {
    hide PairRun, Run, PairStep, AskFor;
    var asked := [Issue(AskFor(a)), Issue(AskFor(b)), Dispatch];
    OneSideRun(u, before, side, asked);
    PairRunGrows(u, before + OnSide(side, asked), On(side, Settle(0, true)));
    assert TwoCalls(a, b) == asked + [Settle(0, true)];
    assert before + OnSide(side, TwoCalls(a, b)) == before + OnSide(side, asked) + [On(side, Settle(0, true))];
  }

  /** A confusion on one side shows in a run of that side, which no one else has dealt from. */
  lemma ConfusionShows(json: Key -> string, hasSingle: Side -> bool, keys: Keys, side: Side)
    requires !Unconfusing(json, keys(side))
    ensures exists backend: Backend, events: seq<PairEvent> ::
              && AskedWithin(events, keys)
              && var u := Setup(json, backend, hasSingle); !PairAnswersAlone(u, PairRun(u, events))
  {
    hide PairRun, Run, CacheKey, Serialize, Dictionary, AnswersAlone;
    var a, b := ConfusedKeys(json, keys(side));
    ConfusedKeysShow(json, hasSingle(side), a, b);
    var backend: Backend :| var w := LoaderRuns.World(json, backend, hasSingle(side));
                            !AnswersAlone(w, Run(w, TwoCalls(a, b)));
    var u, events := Setup(json, backend, hasSingle), OnSide(side, TwoCalls(a, b));
    FirstTwoCalls(u, side, a, b);
    assert !AnswersAlone(u.World(side), PairRun(u, events).At(side));
    assert AskedWithin(events, keys) by {
      TwoCallsAskWithin(keys, side, a, b);
    }
  }

  lemma TwoCallsAskWithin(keys: Keys, side: Side, a: Key, b: Key)
    requires a in keys(side) && b in keys(side)
    ensures AskedWithin(OnSide(side, TwoCalls(a, b)), keys)
  {
    var events := TwoCalls(a, b);
    forall e, key | e in OnSide(side, events) && e.event.Issue? && key in KeysOf(e.event.call)
      ensures key in keys(e.side)
    {
      var n :| 0 <= n < |events| && OnSide(side, events)[n] == e;
      assert events[n] in events;
    }
  }

  /** The first run on a side is as with fresh replies. */
  lemma FirstTwoCalls(u: Setup, side: Side, a: Key, b: Key)
    ensures PairRun(u, OnSide(side, TwoCalls(a, b))).At(side) == Run(u.World(side), TwoCalls(a, b))
  {
    hide Run, PairRun, CallFor, Leftovers;
    var w := u.World(side);
    var asked := [Issue(AskFor(a)), Issue(AskFor(b)), Dispatch];
    PairRunOfNothing(u);
    TwoCallsOnSide(u, [], side, a, b);
    assert [] + OnSide(side, TwoCalls(a, b)) == OnSide(side, TwoCalls(a, b));
    RunGrows(w, asked, Settle(0, true));
    assert TwoCalls(a, b) == asked + [Settle(0, true)];
    var s := Run(w, asked);
    if s.chunks != [] {
      NothingDealtYet(w, ChunkKeys(s, s.chunks[0]));
    }
  }

  lemma PairRunOfNothing(u: Setup)
    ensures PairRun(u, []) == PAIR_START
  {
  }

  lemma NothingDealtYet(w: World, keys: seq<Key>)
    ensures Contents(map[], w, keys) == Replies(w.backend, keys, w.hasSingle)
  {
    hide GroupNames, Group, RequestFor, ReplyTo;
  }

  // ---------------------------------------------------------------- what is shared shows

  /** Keys of both sides for which both make one call. */
  ghost predicate Shared(hasSingle: Side -> bool, a: Key, b: Key) {
    || (a == b && (a.params != [] || (!hasSingle(One) && !hasSingle(Many))))
    || (a != b && a.params == [] && b.params == [])
  }

  function Both(a: Key, b: Key): seq<Key> { if a == b then [a] else [a, b] }

  lemma SharedKeys(hasSingle: Side -> bool, keys: Keys) returns (a: Key, b: Key)
    requires !NothingShared(hasSingle, keys)
    ensures a in keys(One) && a in keys(Many) && b in keys(One) && b in keys(Many)
    ensures Shared(hasSingle, a, b)
  {
    if k :| k in keys(One) && k in keys(Many) && Shared(hasSingle, k, k) {
      a, b := k, k;
    } else {
      forall k | k in keys(One) && k in keys(Many)
        ensures k.params == [] && (hasSingle(One) || hasSingle(Many))
      {
        assert !Shared(hasSingle, k, k);
      }
      a, b :| a in keys(One) && a in keys(Many) && b in keys(One) && b in keys(Many) && a != b;
    }
  }

  /** They are one group, fetched by the same call on both sides. */
  lemma SharedIsOneCall(hasSingle: Side -> bool, a: Key, b: Key, side: Side)
    requires Shared(hasSingle, a, b)
    ensures var ks := Both(a, b);
            && |GroupNames(ks)| == 1 && Group(ks, GroupNames(ks)[0]) == ks
            && CallFor(ks, hasSingle(side), 0) == Multiple(a.params, Ids(ks))
  {
    var ks := Both(a, b);
    SerializedIsEmpty(a);
    SerializedIsEmpty(b);
    hide Serialize, Group;
    assert a in ks;
    assert |GroupNames(ks)| == 1 by {
      OneName(ks);
    }
    OneGroup(ks);
    assert ks[0] == a;
  }

  lemma OneName(keys: seq<Key>)
    requires keys != [] && forall k | k in keys :: Serialize(k) == Serialize(keys[0])
    ensures |GroupNames(keys)| == 1
  {
    hide Serialize;
    var names := GroupNames(keys);
    forall i | 0 <= i < |names| ensures names[i] == Serialize(keys[0]) {
      assert names[i] in names;
    }
  }

  /** Both calls wait in one chunk. */
  lemma BothDispatched(w: World, a: Key, b: Key) returns (cache: map<string, nat>, issued: seq<Issued>)
    requires a == b || CacheKey(w.json, a) != CacheKey(w.json, b)
    ensures LoaderRuns.Run(w, [Issue(AskFor(a)), Issue(AskFor(b)), Dispatch]) ==
            Step(w, Queued(cache, Both(a, b), issued), Dispatch)
    ensures issued != [] && issued[0] == Issued(AskFor(a), [0])
  {
    hide AskFor, CacheKey, Step, Queued, LoaderRuns.Run;
    AskedRun(w, a, b);
    if a == b {
      SecondShares(w, a, b);
      cache, issued := map[CacheKey(w.json, a) := 0], [Issued(AskFor(a), [0]), Issued(AskFor(b), [0])];
    } else {
      SecondIsQueued(w, a, b);
      cache := map[CacheKey(w.json, a) := 0, CacheKey(w.json, b) := 1];
      issued := [Issued(AskFor(a), [0]), Issued(AskFor(b), [1])];
    }
  }

  /** The first side empties the array. */
  lemma FirstSideDrains(u: Setup, a: Key, b: Key)
    requires Shared(u.hasSingle, a, b) && (a == b || CacheKey(u.json, a) != CacheKey(u.json, b))
    ensures var p, call := PairRun(u, OnSide(One, TwoCalls(a, b))), Multiple(a.params, Ids(Both(a, b)));
            p.many == START && call in p.memory && p.memory[call] == []
  {
    hide AskFor, CacheKey, Queued, LoaderRuns.Run, PairRun, Shared, GroupNames, Group, Leftovers, CallFor, Step;
    hide SucceedWith;
    var w, ks := u.World(One), Both(a, b);
    PairRunOfNothing(u);
    TwoCallsOnSide(u, [], One, a, b);
    assert [] + OnSide(One, TwoCalls(a, b)) == OnSide(One, TwoCalls(a, b));
    SharedIsOneCall(u.hasSingle, a, b, One);
    var cache, issued := BothDispatched(w, a, b);
    var contents := Contents(map[], w, ks);
    var s := Answered(w, cache, ks, issued, contents);
    var call := CallFor(ks, w.hasSingle, 0);
    assert contents[0] == ReplyTo(w.backend, call);
    NothingLeft(w, ks, contents);
    assert PairRun(u, OnSide(One, TwoCalls(a, b))).memory == Leftovers(map[], w, ks, contents, |contents|);
  }

  lemma NothingLeft(w: World, keys: seq<Key>, contents: seq<seq<Item>>)
    requires |contents| == |GroupNames(keys)| == 1 && Group(keys, GroupNames(keys)[0]) == keys
    requires CallFor(keys, w.hasSingle, 0).Multiple? && |contents[0]| == |keys|
    ensures Leftovers(map[], w, keys, contents, 1) == map[CallFor(keys, w.hasSingle, 0) := []]
  {
    hide GroupNames, Group, CallFor;
    var left := Reversed(Drop(contents[0], |keys|));
    assert left == [];
    assert Leftovers(map[], w, keys, contents, 0) == map[];
  }

  lemma SecondSideStarves(u: Setup, a: Key, b: Key)
    requires Shared(u.hasSingle, a, b) && (a == b || CacheKey(u.json, a) != CacheKey(u.json, b))
    requires u.backend(a.id, Dictionary(a.params)) != Undefined
    ensures !PairAnswersAlone(u, PairRun(u, OnSide(One, TwoCalls(a, b)) + OnSide(Many, TwoCalls(a, b))))
  {
    hide AskFor, CacheKey, Queued, LoaderRuns.Run, PairRun, Shared, GroupNames, Group, Dictionary, AnswersAlone;
    var w, ks, before := u.World(Many), Both(a, b), OnSide(One, TwoCalls(a, b));
    FirstSideDrains(u, a, b);
    var memory := PairRun(u, before).memory;
    TwoCallsOnSide(u, before, Many, a, b);
    SharedIsOneCall(u.hasSingle, a, b, Many);
    var cache, issued := BothDispatched(w, a, b);
    var contents := Contents(memory, w, ks);
    assert contents == [[]];
    var s := Answered(w, cache, ks, issued, contents);
    assert s == PairRun(u, before + OnSide(Many, TwoCalls(a, b))).At(Many);
    DealtFromOneGroup(ks, []);
    assert ks[0] == a && s.promises[0].status == Settled(Undefined);
    assert issued[0] in s.issued;
    WrongAnswerShows(w, s, a, 0);
    assert !AnswersAlone(u.World(Many), s);
  }

  lemma SharingShows(json: Key -> string, hasSingle: Side -> bool, keys: Keys)
    requires !NothingShared(hasSingle, keys)
    ensures exists backend: Backend, events: seq<PairEvent> ::
              && AskedWithin(events, keys)
              && var u := Setup(json, backend, hasSingle); !PairAnswersAlone(u, PairRun(u, events))
  {
    hide PairRun, PairAnswersAlone, AskedWithin, NothingShared;
    var a, b := SharedKeys(hasSingle, keys);
    var u := Setup(json, (_, _) => Found(""), hasSingle);
    var events := OnSide(One, TwoCalls(a, b)) + OnSide(Many, TwoCalls(a, b));
    SecondSideStarves(u, a, b);
    assert AskedWithin(events, keys) by {
      TwoCallsAskWithin(keys, One, a, b);
      TwoCallsAskWithin(keys, Many, a, b);
      AskedOnBoth(OnSide(One, TwoCalls(a, b)), OnSide(Many, TwoCalls(a, b)), keys);
    }
  }

  lemma AskedOnBoth(es: seq<PairEvent>, fs: seq<PairEvent>, keys: Keys)
    requires AskedWithin(es, keys) && AskedWithin(fs, keys)
    ensures AskedWithin(es + fs, keys)
  {
  }

  // ---------------------------------------------------------------- how promises end

  lemma SideStepIsSound(w: World, s: State, memory: Memory, e: Event)
    requires Sound(w, s)
    ensures Sound(w, SideStep(w, s, memory, e).0)
  {
    hide Sound;
    if e.Settle? && e.succeeds && e.chunk < |s.chunks| {
      SuccessIsSound(w, s, e.chunk, Contents(memory, w, ChunkKeys(s, s.chunks[e.chunk])));
    } else {
      StepIsSound(w, s, e);
    }
  }

  /** Over every run of both loaders, whatever the keys, the backend, and the arrays that are shared. */
  lemma {:induction false} PairIsSound(u: Setup, events: seq<PairEvent>, side: Side)
    ensures Sound(u.World(side), PairRun(u, events).At(side))
  {
    hide Sound, SideStep;
    if events == [] {
      StartIsSound(u.World(side));
    } else {
      var init, e := events[..|events| - 1], events[|events| - 1];
      PairIsSound(u, init, side);
      var p := PairRun(u, init);
      if e.side == side {
        SideStepIsSound(u.World(side), p.At(side), p.memory, e.event);
      }
    }
  }

  /** At some point of the run a chunk of that side that held the promise ended like this. */
  ghost predicate EndedOn(u: Setup, events: seq<PairEvent>, side: Side, succeeds: bool, t: nat) {
    exists n | 0 <= n < |events| ::
      events[n].side == side && Ends(PairRun(u, events[..n]).At(side), events[n].event, succeeds, t)
  }

  lemma SideStepEnds(w: World, s: State, memory: Memory, e: Event, t: nat)
    requires Sound(w, s)
    ensures IsSettled(SideStep(w, s, memory, e).0, t) <==> IsSettled(s, t) || Ends(s, e, true, t)
    ensures IsBroken(SideStep(w, s, memory, e).0, t) <==> IsBroken(s, t) || Ends(s, e, false, t)
  {
    hide Sound, IsSettled, IsBroken, Step, SucceedWith;
    if e.Settle? && e.succeeds && e.chunk < |s.chunks| {
      SoundPending(w, s);
      SuccessEnds(s, e.chunk, Contents(memory, w, ChunkKeys(s, s.chunks[e.chunk])), t);
    } else {
      StepEnds(w, s, e, t);
    }
  }

  lemma EndedOnGrows(u: Setup, init: seq<PairEvent>, e: PairEvent, side: Side, succeeds: bool, t: nat)
    ensures EndedOn(u, init + [e], side, succeeds, t) <==>
            || EndedOn(u, init, side, succeeds, t)
            || (e.side == side && Ends(PairRun(u, init).At(side), e.event, succeeds, t))
  {
    hide PairRun, Ends;
    var events := init + [e];
    assert events[..|init|] == init && events[|init|] == e;
    assert forall n | 0 <= n < |init| :: events[..n] == init[..n] && events[n] == init[n];
    if EndedOn(u, init, side, succeeds, t) {
      var n :| 0 <= n < |init| && init[n].side == side
        && Ends(PairRun(u, init[..n]).At(side), init[n].event, succeeds, t);
      assert Ends(PairRun(u, events[..n]).At(side), events[n].event, succeeds, t);
    }
  }

  /** Over every run of both loaders, a promise is settled if and only if a chunk that held it ended
      successfully, and broken if and only if one ended otherwise. */
  lemma {:induction false} PairPromisesEndExactly(u: Setup, events: seq<PairEvent>, side: Side, t: nat)
    ensures IsSettled(PairRun(u, events).At(side), t) <==> EndedOn(u, events, side, true, t)
    ensures IsBroken(PairRun(u, events).At(side), t) <==> EndedOn(u, events, side, false, t)
  {
    hide IsSettled, IsBroken, Ends, SideStep, EndedOn, Sound;
    if events == [] {
      NothingEndedOn(u, side, t);
    } else {
      var init, e := events[..|events| - 1], events[|events| - 1];
      PairPromisesEndExactly(u, init, side, t);
      PairIsSound(u, init, side);
      var p := PairRun(u, init);
      if e.side == side {
        SideStepEnds(u.World(side), p.At(side), p.memory, e.event, t);
      }
      EndedOnGrows(u, init, e, side, true, t);
      EndedOnGrows(u, init, e, side, false, t);
      assert events == init + [e];
    }
  }

  lemma NothingEndedOn(u: Setup, side: Side, t: nat)
    ensures !IsSettled(PairRun(u, []).At(side), t) && !IsBroken(PairRun(u, []).At(side), t)
    ensures !EndedOn(u, [], side, true, t) && !EndedOn(u, [], side, false, t)
  {
  }

  /** Once nothing of a side is queued or in flight, a call has all its results if and only if no chunk with
      one of its promises failed; after a run in which none fails, every call has. */
  lemma PairCallsSettleExactly(u: Setup, events: seq<PairEvent>, side: Side, i: Issued)
    requires var s := PairRun(u, events).At(side); s.queue == [] && s.chunks == [] && i in s.issued
    ensures AllSettled(Results(PairRun(u, events).At(side), i.tickets)) <==>
            forall t | t in i.tickets :: !EndedOn(u, events, side, false, t)
    ensures (forall e | e in events && e.event.Settle? :: e.event.succeeds) ==>
              AllSettled(Results(PairRun(u, events).At(side), i.tickets))
  {
    hide PairRun, Sound, Results;
    var w, s := u.World(side), PairRun(u, events).At(side);
    PairIsSound(u, events, side);
    NothingPendingExactly(w, s);
    forall t: nat ensures IsBroken(s, t) <==> EndedOn(u, events, side, false, t) {
      PairPromisesEndExactly(u, events, side, t);
    }
    SettledUnlessBroken(w, s, i);
  }

  /** Over every run of both loaders, keys of failed chunks are fetched again. */
  lemma PairAsksAgain(u: Setup, events: seq<PairEvent>, side: Side, call: Call)
    ensures AsksAgain(u.World(side), PairRun(u, events).At(side),
                      PairRun(u, events + [On(side, Issue(call))]).At(side), call)
  {
    hide PairRun, AsksAgain, Sound, Step;
    PairRunGrows(u, events, On(side, Issue(call)));
    PairIsSound(u, events, side);
    IssueAsksAgain(u.World(side), PairRun(u, events).At(side), call);
  }
}
