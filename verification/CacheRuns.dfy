/** Runs of the caching loader (`src/lib/loaders/api/loader_without_authentication_factory.ts`) over the
    shared key/value store (`src/lib/cache.ts`): reads, API calls and writes of concurrent loads end
    in any order, successfully or not, and entries may expire at any time. */
module CacheRuns {
  import opened Wrappers

  /** A JSON value.  Objects carry their `cached` stamp apart from their other fields, and scalars say
      whether JavaScript takes them for true. */
  datatype Json =
    | Null
    | Scalar(text: string, truthy: bool)
    | Object(fields: string, cached: Option<int>)
    | Array(items: seq<Json>)

  /** What a load hands out: a bare body, or the object made of a body and its headers. */
  datatype Data = Bare(body: Json) | Pair(body: Json, headers: string, cached: Option<int>)

  // ---------------------------------------------------------------- stamping

  /** `datum && (datum.cached = timestamp)`: `None` where assigning to a primitive throws. */
  function StampedItem(item: Json, now: int): Option<Json> {
    match item
    case Null => Some(Null)
    case Scalar(_, truthy) => if truthy then None else Some(item)
    case Object(_, _) => Some(item.(cached := Some(now)))
    case Array(_) => Some(item)  // a property of an array is not part of its JSON text
  }

  predicate Stampable(items: seq<Json>) {
    forall i | 0 <= i < |items| :: !(items[i].Scalar? && items[i].truthy)
  }

  function StampedItems(items: seq<Json>, now: int): Option<seq<Json>> {
    if Stampable(items) then Some(seq(|items|, i requires 0 <= i < |items| => StampedItem(items[i], now).value))
    else None
  }

  /** The stamping loop of `_set`, on the items of an array body, in place. */
  method StampEach(items: array<Json>, now: int) returns (threw: bool)
    modifies items
    ensures threw <==> StampedItems(old(items[..]), now).None?
    ensures !threw ==> items[..] == StampedItems(old(items[..]), now).value
  {
    ghost var was := items[..];
    for i := 0 to items.Length
      invariant Stampable(was[..i])
      invariant forall k | 0 <= k < i :: items[k] == StampedItem(was[k], now).value
      invariant forall k | i <= k < items.Length :: items[k] == was[k]
    {
      match items[i]
      case Null =>
      case Scalar(_, truthy) =>
        if truthy {
          return true;
        }
      case Object(_, _) =>
        items[i] := items[i].(cached := Some(now));
      case Array(_) =>
    }
    assert was[..items.Length] == was;
    threw := false;
  }

  /** What `_set` makes of the data before it is written; `None` where it throws. */
  function Stamped(data: Data, now: int): Option<Data> {
    match data
    case Pair(body, headers, _) => Some(Pair(body, headers, Some(now)))
    case Bare(Null) => None
    case Bare(Scalar(_, _)) => None
    case Bare(Object(fields, _)) => Some(Bare(Object(fields, Some(now))))
    case Bare(Array(items)) =>
      var stamped := StampedItems(items, now);
      if stamped.None? then None else Some(Bare(Array(stamped.value)))
  }

  function WithoutStamp(item: Json): Json {
    if item.Object? then item.(cached := None) else item
  }

  function WithoutStamps(items: seq<Json>): seq<Json> {
    seq(|items|, i requires 0 <= i < |items| => WithoutStamp(items[i]))
  }

  /** The data without the stamps `_set` puts on it. */
  function Unstamped(data: Data): Data {
    match data
    case Pair(_, _, _) => data.(cached := None)
    case Bare(Array(items)) => Bare(Array(WithoutStamps(items)))
    case Bare(body) => Bare(WithoutStamp(body))
  }

  /** Every stamp `_set` puts on data says `now`. */
  predicate StampsSay(data: Data, now: int) {
    match data
    case Pair(_, _, cached) => cached == Some(now)
    case Bare(Object(_, cached)) => cached == Some(now)
    case Bare(Array(items)) => forall i | 0 <= i < |items| && items[i].Object? :: items[i].cached == Some(now)
    case Bare(_) => true
  }

  /** Stamping changes nothing but the stamps, and they say when. */
  lemma StampingKeepsData(data: Data, now: int)
    requires Stamped(data, now).Some?
    ensures Unstamped(Stamped(data, now).value) == Unstamped(data)
    ensures Stamped(data, now).value.Pair? <==> data.Pair?
    ensures StampsSay(Stamped(data, now).value, now)
  {
    if data.Bare? && data.body.Array? {
      var items, stamped := data.body.items, Stamped(data, now).value.body.items;
      assert WithoutStamps(stamped) == WithoutStamps(items);
    }
  }

  // ---------------------------------------------------------------- requests

  datatype Method = GET | PUT | POST | DELETE

  /** A load: its path key, whether headers were asked for, and what may make it skip the cache. */
  datatype Request = Request(key: string, headers: bool, verb: Option<Method>, isMutation: bool)

  /** Loads that neither read nor write the cache: all but reads, and all while it is disabled. */
  predicate Bypasses(disabled: bool, r: Request) {
    disabled || r.isMutation || !(r.verb == None || r.verb == Some(GET))
  }

  predicate SkipsCache(disabled: bool, r: Request): (skips: bool)
    ensures skips <==> Bypasses(disabled, r)
  {
    assert r.verb.Some? ==> r.verb.value.GET? || r.verb.value.PUT? || r.verb.value.POST? || r.verb.value.DELETE?;
    disabled || r.verb == Some(PUT) || r.verb == Some(POST) || r.verb == Some(DELETE) || r.isMutation
  }

  const HEADERS: string := "::headers"

  function StoreKey(key: string, headers: bool): string {
    if headers then key + HEADERS else key
  }

  /** `reduceData`. */
  function Reduce(headers: bool, body: Json, headerText: string): Data {
    if headers then Pair(body, headerText, None) else Bare(body)
  }

  /** Different requests share an entry exactly when one asks for headers and the other's key is its
      key followed by `::headers`. */
  lemma StoreKeysCollide(key: string, headers: bool, key': string, headers': bool)
    requires (key, headers) != (key', headers')
    ensures StoreKey(key, headers) == StoreKey(key', headers') <==>
            || (headers && !headers' && key' == key + "::headers")
            || (headers' && !headers && key == key' + "::headers")
  {
    assert key == (key + HEADERS)[..|key|];
    assert key' == (key' + HEADERS)[..|key'|];
  }

  // ---------------------------------------------------------------- steps

  datatype Phase = Reading | Calling | Done(data: Data) | Failed

  datatype Load = Load(request: Request, phase: Phase)

  /** A write on its way to the store; its payload was fixed when the data was stamped. */
  datatype Write = Write(at: string, payload: Data)

  /** A successful reply of the API to the call of a load. */
  datatype Reply = Reply(load: nat, request: Request, body: Json, headers: string) {
    /** The reply in the shape that was asked for. */
    function Reduced(): Data {
      if request.headers then Pair(body, headers, None) else Bare(body)
    }
  }

  datatype State = State(
    store: map<string, Data>,
    writes: seq<Write>,
    loads: seq<Load>,
    replies: seq<Reply>)

  datatype Event =
    | Start(request: Request)
    | ReadEnds(load: nat, delivered: bool)
    | ApiReplies(load: nat, body: Json, headers: string, now: int)
    | ApiFails(load: nat)
    | WriteEnds(write: nat, stored: bool)
    | Expire(key: string)

  const START := State(map[], [], [], [])

  predicate InPhase(s: State, i: nat, phase: Phase) {
    i < |s.loads| && s.loads[i].phase == phase
  }

  function Moved(s: State, i: nat, phase: Phase): State
    requires i < |s.loads|
  {
    s.(loads := s.loads[i := s.loads[i].(phase := phase)])
  }

  function Step(disabled: bool, s: State, e: Event): State {
    match e
    case Start(r) =>
      s.(loads := s.loads + [Load(r, if SkipsCache(disabled, r) then Calling else Reading)])
    case ReadEnds(i, delivered) =>
      if !InPhase(s, i, Reading) then s
      else
        var at := StoreKey(s.loads[i].request.key, s.loads[i].request.headers);
        if delivered && at in s.store then Moved(s, i, Done(s.store[at]))
        else Moved(s, i, Calling)  // a miss, an error or a timeout
    case ApiReplies(i, body, headers, now) =>
      if !InPhase(s, i, Calling) then s
      else
        var r := s.loads[i].request;
        var data := Reduce(r.headers, body, headers);
        var s1 := s.(replies := s.replies + [Reply(i, r, body, headers)]);
        if SkipsCache(disabled, r) then Moved(s1, i, Done(data))
        else
          var stamped := Stamped(data, now);
          if stamped.None? then Moved(s1, i, Failed)
          else
            var write := Write(StoreKey(r.key, r.headers), stamped.value);
            Moved(s1.(writes := s.writes + [write]), i, Done(stamped.value))
    case ApiFails(i) =>
      if InPhase(s, i, Calling) then Moved(s, i, Failed) else s
    case WriteEnds(w, stored) =>
      if w >= |s.writes| then s
      else
        s.(writes := s.writes[..w] + s.writes[w + 1..],
           store := if stored then s.store[s.writes[w].at := s.writes[w].payload] else s.store)
    case Expire(key) => s.(store := s.store - {key})
  }

  function Run(disabled: bool, events: seq<Event>): State {
    if events == [] then START else Step(disabled, Run(disabled, events[..|events| - 1]), events[|events| - 1])
  }

  // ---------------------------------------------------------------- what the store holds

  /** Under the store key `at` lies an earlier successful reply to a load with that store key that does
      not skip the cache, reduced as that load asked for it, and stamped. */
  ghost predicate Genuine(disabled: bool, replies: seq<Reply>, at: string, data: Data) {
    exists k, now | 0 <= k < |replies| ::
      && !SkipsCache(disabled, replies[k].request)
      && StoreKey(replies[k].request.key, replies[k].request.headers) == at
      && Stamped(replies[k].Reduced(), now) == Some(data)
  }

  /** A load that skips the cache ends with the reply to its own call, another one with what may lie
      under its store key. */
  ghost predicate LoadRight(disabled: bool, replies: seq<Reply>, i: nat, l: Load) {
    match l.phase
    case Done(data) =>
      if SkipsCache(disabled, l.request)
      then exists k | 0 <= k < |replies| ::
             replies[k].load == i && replies[k].request == l.request && data == replies[k].Reduced()
      else Genuine(disabled, replies, StoreKey(l.request.key, l.request.headers), data)
    case Reading => !SkipsCache(disabled, l.request)
    case _ => true
  }

  ghost predicate Invariant(disabled: bool, s: State) {
    && (forall at | at in s.store :: Genuine(disabled, s.replies, at, s.store[at]))
    && (forall w | w in s.writes :: Genuine(disabled, s.replies, w.at, w.payload))
    && (forall i | 0 <= i < |s.loads| :: LoadRight(disabled, s.replies, i, s.loads[i]))
  }

  lemma GenuineStays(disabled: bool, replies: seq<Reply>, r: Reply, at: string, data: Data)
    requires Genuine(disabled, replies, at, data)
    ensures Genuine(disabled, replies + [r], at, data)
  {
    var k, now :| 0 <= k < |replies| && !SkipsCache(disabled, replies[k].request)
      && StoreKey(replies[k].request.key, replies[k].request.headers) == at
      && Stamped(replies[k].Reduced(), now) == Some(data);
    assert (replies + [r])[k] == replies[k];
  }

  lemma LoadRightStays(disabled: bool, replies: seq<Reply>, r: Reply, i: nat, l: Load)
    requires LoadRight(disabled, replies, i, l)
    ensures LoadRight(disabled, replies + [r], i, l)
  {
    if l.phase.Done? {
      if SkipsCache(disabled, l.request) {
        var k :| 0 <= k < |replies| && replies[k].load == i && replies[k].request == l.request
          && l.phase.data == replies[k].Reduced();
        assert (replies + [r])[k] == replies[k];
      } else {
        GenuineStays(disabled, replies, r, StoreKey(l.request.key, l.request.headers), l.phase.data);
      }
    }
  }

  lemma ReplyKeeps(disabled: bool, s: State, i: nat, body: Json, headers: string, now: int)
    requires Invariant(disabled, s) && InPhase(s, i, Calling)
    ensures Invariant(disabled, Step(disabled, s, ApiReplies(i, body, headers, now)))
  {
    hide Stamped, Genuine, LoadRight;
    var reply := Reply(i, s.loads[i].request, body, headers);
    var s' := Step(disabled, s, ApiReplies(i, body, headers, now));
    forall at | at in s.store ensures Genuine(disabled, s'.replies, at, s.store[at]) {
      GenuineStays(disabled, s.replies, reply, at, s.store[at]);
    }
    forall w | w in s.writes ensures Genuine(disabled, s'.replies, w.at, w.payload) {
      GenuineStays(disabled, s.replies, reply, w.at, w.payload);
    }
    forall j | 0 <= j < |s.loads| ensures LoadRight(disabled, s'.replies, j, s.loads[j]) {
      LoadRightStays(disabled, s.replies, reply, j, s.loads[j]);
    }
    NewReply(disabled, s, i, body, headers, now);
  }

  lemma NewReply(disabled: bool, s: State, i: nat, body: Json, headers: string, now: int)
    requires InPhase(s, i, Calling)
    ensures var s' := Step(disabled, s, ApiReplies(i, body, headers, now));
            && LoadRight(disabled, s'.replies, i, s'.loads[i])
            && forall w | w in s'.writes :: w in s.writes || Genuine(disabled, s'.replies, w.at, w.payload)
  {
    var r := s.loads[i].request;
    var s' := Step(disabled, s, ApiReplies(i, body, headers, now));
    var reply := s'.replies[|s.replies|];
    assert reply == Reply(i, r, body, headers);
    if !SkipsCache(disabled, r) && Stamped(reply.Reduced(), now).Some? {
      assert Genuine(disabled, s'.replies, StoreKey(r.key, r.headers), Stamped(reply.Reduced(), now).value);
    }
  }

  lemma StepKeeps(disabled: bool, s: State, e: Event)
    requires Invariant(disabled, s)
    ensures Invariant(disabled, Step(disabled, s, e))
  {
    match e
    case Start(r) =>
    case ReadEnds(i, delivered) =>
      if InPhase(s, i, Reading) {
        assert s.loads[i] in s.loads;
      }
    case ApiReplies(i, body, headers, now) =>
      if InPhase(s, i, Calling) {
        ReplyKeeps(disabled, s, i, body, headers, now);
      }
    case ApiFails(i) =>
    case WriteEnds(w, stored) =>
      if w < |s.writes| {
        assert s.writes[w] in s.writes;
      }
    case Expire(key) =>
  }

  lemma {:induction false} RunKeeps(disabled: bool, events: seq<Event>)
    ensures Invariant(disabled, Run(disabled, events))
  {
    if events != [] {
      RunKeeps(disabled, events[..|events| - 1]);
      StepKeeps(disabled, Run(disabled, events[..|events| - 1]), events[|events| - 1]);
    }
  }

  // ---------------------------------------------------------------- what loads are given

  /** No key is another one followed by `::headers`. */
  ghost predicate Apart(keys: set<string>) {
    forall a, b | a in keys && b in keys :: a != b + "::headers"
  }

  ghost predicate KeysWithin(events: seq<Event>, keys: set<string>) {
    forall e | e in events && e.Start? :: e.request.key in keys
  }

  /** The answer of a load that skips the cache is the reply to its own call.  That of another one is, but
      for the stamp, the reply to a load that skips no cache either, for the same key and shape. */
  ghost predicate AnsweredRight(disabled: bool, s: State, i: nat)
    requires i < |s.loads|
  {
    var l := s.loads[i];
    l.phase.Done? ==> exists k | 0 <= k < |s.replies| :: RightReply(disabled, s.replies[k], i, l.request, l.phase.data)
  }

  predicate RightReply(disabled: bool, reply: Reply, i: nat, request: Request, data: Data) {
    if Bypasses(disabled, request) then
      reply.load == i && reply.request == request && data == reply.Reduced()
    else
      && !Bypasses(disabled, reply.request)
      && (reply.request.key, reply.request.headers) == (request.key, request.headers)
      && Unstamped(data) == Unstamped(reply.Reduced())
      && (data.Pair? <==> request.headers)
  }

  lemma {:induction false} KeysAreKnown(disabled: bool, events: seq<Event>, keys: set<string>)
    requires KeysWithin(events, keys)
    ensures forall l | l in Run(disabled, events).loads :: l.request.key in keys
    ensures forall r | r in Run(disabled, events).replies :: r.request.key in keys
  {
    if events != [] {
      var init, e := events[..|events| - 1], events[|events| - 1];
      assert e in events;
      KeysAreKnown(disabled, init, keys);
      var s := Run(disabled, init);
      assert forall i | 0 <= i < |s.loads| :: s.loads[i] in s.loads;
    }
  }

  lemma LoadIsAnsweredRight(disabled: bool, s: State, i: nat, keys: set<string>)
    requires Invariant(disabled, s) && i < |s.loads| && Apart(keys)
    requires s.loads[i].request.key in keys && forall r | r in s.replies :: r.request.key in keys
    ensures AnsweredRight(disabled, s, i)
  {
    var l := s.loads[i];
    assert LoadRight(disabled, s.replies, i, l);
    if l.phase.Done? {
      var data, r := l.phase.data, l.request;
      if SkipsCache(disabled, r) {
        var k :| 0 <= k < |s.replies| && s.replies[k].load == i && s.replies[k].request == r
          && data == s.replies[k].Reduced();
        assert RightReply(disabled, s.replies[k], i, r, data);
      } else {
        var k, now :| 0 <= k < |s.replies| && !SkipsCache(disabled, s.replies[k].request)
          && StoreKey(s.replies[k].request.key, s.replies[k].request.headers) == StoreKey(r.key, r.headers)
          && Stamped(s.replies[k].Reduced(), now) == Some(data);
        var q := s.replies[k].request;
        assert s.replies[k] in s.replies;
        if (q.key, q.headers) != (r.key, r.headers) {
          StoreKeysCollide(q.key, q.headers, r.key, r.headers);
        }
        StampingKeepsData(s.replies[k].Reduced(), now);
        assert RightReply(disabled, s.replies[k], i, r, data);
      }
    }
  }

  /** A load that starts when another's answer of the other shape lies under its store key. */
  function ConfusedRun(plain: string, withHeaders: string): seq<Event> {
    var body := Object("{}", None);
    [ Start(Request(withHeaders, true, None, false)), ReadEnds(0, true), ApiReplies(0, body, "", 0), WriteEnds(0, true),
      Start(Request(plain, false, None, false)), ReadEnds(1, true) ]
  }

  lemma ConfusedLoad(plain: string, withHeaders: string)
    requires plain == withHeaders + HEADERS
    ensures var s := Run(false, ConfusedRun(plain, withHeaders));
            |s.loads| == 2 && !AnsweredRight(false, s, 1)
  {
    var body := Object("{}", None);
    var events := ConfusedRun(plain, withHeaders);
    var r0, r1 := Request(withHeaders, true, None, false), Request(plain, false, None, false);
    var data := Pair(body, "", Some(0));
    var store, reply := map[plain := data], Reply(0, r0, body, "");
    var s1 := State(map[], [], [Load(r0, Reading)], []);
    var s2 := State(map[], [], [Load(r0, Calling)], []);
    var s3 := State(map[], [Write(plain, data)], [Load(r0, Done(data))], [reply]);
    var s4 := State(store, [], [Load(r0, Done(data))], [reply]);
    var s5 := State(store, [], [Load(r0, Done(data)), Load(r1, Reading)], [reply]);
    var s6 := State(store, [], [Load(r0, Done(data)), Load(r1, Done(data))], [reply]);
    assert Step(false, START, events[0]) == s1;
    assert Step(false, s1, events[1]) == s2;
    assert Step(false, s2, events[2]) == s3;
    assert Step(false, s3, events[3]) == s4;
    assert Step(false, s4, events[4]) == s5;
    assert Step(false, s5, events[5]) == s6;
    assert !AnsweredRight(false, s6, 1);
    RunOfSix(false, events);
  }

  lemma RunOfSix(disabled: bool, events: seq<Event>)
    requires |events| == 6
    ensures Run(disabled, events) ==
            Step(disabled, Step(disabled, Step(disabled, Step(disabled, Step(disabled, Step(disabled, START,
              events[0]), events[1]), events[2]), events[3]), events[4]), events[5])
  {
    hide Step;
    assert events[..6] == events && events[..0] == [];
    assert forall n | 0 <= n < 6 :: events[..n + 1][..n] == events[..n] && events[..n + 1][n] == events[n];
    assert forall n | 0 <= n < 6 ::
             Run(disabled, events[..n + 1]) == Step(disabled, Run(disabled, events[..n]), events[n]);
  }

  /** Over every run of loads for a set of keys, every finished load is answered right, if and only if
      no key of the set is another followed by `::headers`. */
  lemma LoadsAreAnsweredRightExactly(keys: set<string>)
    ensures (forall disabled: bool, events: seq<Event> | KeysWithin(events, keys) ::
               forall i | 0 <= i < |Run(disabled, events).loads| :: AnsweredRight(disabled, Run(disabled, events), i))
            <==> Apart(keys)
  {
    if Apart(keys) {
      forall disabled: bool, events: seq<Event>, i |
          KeysWithin(events, keys) && 0 <= i < |Run(disabled, events).loads|
        ensures AnsweredRight(disabled, Run(disabled, events), i)
      {
        RunKeeps(disabled, events);
        KeysAreKnown(disabled, events, keys);
        assert Run(disabled, events).loads[i] in Run(disabled, events).loads;
        LoadIsAnsweredRight(disabled, Run(disabled, events), i, keys);
      }
    } else {
      var a, b :| a in keys && b in keys && a == b + HEADERS;
      ConfusedLoad(a, b);
      assert KeysWithin(ConfusedRun(a, b), keys);
    }
  }

  /** A run in which every reply went to a load that skips the cache, or could not be stamped, has left
      nothing in the store or on its way there, whatever else failed. */
  lemma NothingIsStored(disabled: bool, events: seq<Event>)
    requires forall r, now | r in Run(disabled, events).replies ::
               SkipsCache(disabled, r.request) || Stamped(r.Reduced(), now).None?
    ensures Run(disabled, events).store == map[] && Run(disabled, events).writes == []
  {
    var s := Run(disabled, events);
    RunKeeps(disabled, events);
    if at :| at in s.store {
      NothingIsGenuine(disabled, s.replies, at, s.store[at]);
    }
    if s.writes != [] {
      assert s.writes[0] in s.writes;
      NothingIsGenuine(disabled, s.replies, s.writes[0].at, s.writes[0].payload);
    }
  }

  lemma NothingIsGenuine(disabled: bool, replies: seq<Reply>, at: string, data: Data)
    requires forall r, now | r in replies :: SkipsCache(disabled, r.request) || Stamped(r.Reduced(), now).None?
    ensures !Genuine(disabled, replies, at, data)
  {
    forall k, now | 0 <= k < |replies| && !SkipsCache(disabled, replies[k].request)
      ensures Stamped(replies[k].Reduced(), now).None?
    {
      assert replies[k] in replies;
    }
  }

  // ---------------------------------------------------------------- what fails

  /** A body that `_set` cannot stamp: `null`, a scalar, or a list with a truthy scalar. */
  predicate Unstampable(body: Json) {
    body.Null? || body.Scalar? || (body.Array? && !Stampable(body.items))
  }

  /** The API answered the call of load `i`, a caching load without headers, with such a body. */
  ghost predicate RepliedUnstampably(disabled: bool, replies: seq<Reply>, i: nat) {
    exists k | 0 <= k < |replies| ::
      && replies[k].load == i && !SkipsCache(disabled, replies[k].request)
      && !replies[k].request.headers && Unstampable(replies[k].body)
  }

  /** At some point of the run the call of load `i` was under way, and failed. */
  ghost predicate CallFailed(disabled: bool, events: seq<Event>, i: nat) {
    exists n | 0 <= n < |events| :: events[n] == ApiFails(i) && InPhase(Run(disabled, events[..n]), i, Calling)
  }

  lemma CallFailedGrows(disabled: bool, init: seq<Event>, e: Event, i: nat)
    ensures CallFailed(disabled, init + [e], i) <==>
            CallFailed(disabled, init, i) || (e == ApiFails(i) && InPhase(Run(disabled, init), i, Calling))
  {
    hide Run;
    var events := init + [e];
    assert events[..|init|] == init;
    assert forall n | 0 <= n < |init| :: events[..n] == init[..n] && events[n] == init[n];
    if e == ApiFails(i) && InPhase(Run(disabled, init), i, Calling) {
      assert events[|init|] == e;
    }
    if CallFailed(disabled, init, i) {
      var n :| 0 <= n < |init| && init[n] == ApiFails(i) && InPhase(Run(disabled, init[..n]), i, Calling);
      assert events[n] == ApiFails(i) && InPhase(Run(disabled, events[..n]), i, Calling);
    }
  }

  lemma RepliedGrows(disabled: bool, replies: seq<Reply>, r: Reply, i: nat)
    ensures RepliedUnstampably(disabled, replies + [r], i) <==>
            RepliedUnstampably(disabled, replies, i) || RepliedUnstampably(disabled, [r], i)
  {
    if RepliedUnstampably(disabled, [r], i) {
      assert (replies + [r])[|replies|] == [r][0];
    }
    if RepliedUnstampably(disabled, replies, i) {
      var k :| 0 <= k < |replies| && replies[k].load == i && !SkipsCache(disabled, replies[k].request)
        && !replies[k].request.headers && Unstampable(replies[k].body);
      assert (replies + [r])[k] == replies[k];
    }
  }

  predicate HasFailed(s: State, i: nat) {
    InPhase(s, i, Failed)
  }

  /** Over every run, a load fails if and only if its call failed, or the API answered with a body that
      cannot be stamped: the answer is then thrown away. */
  lemma {:induction false} LoadsFailExactly(disabled: bool, events: seq<Event>, i: nat)
    ensures HasFailed(Run(disabled, events), i) <==>
            CallFailed(disabled, events, i) || RepliedUnstampably(disabled, Run(disabled, events).replies, i)
  {
    hide RepliedUnstampably, CallFailed;
    if events == [] {
      NothingFailedYet(disabled, i);
    } else {
      var init, e := events[..|events| - 1], events[|events| - 1];
      assert events == init + [e];
      LoadsFailExactly(disabled, init, i);
      CallFailedGrows(disabled, init, e, i);
      FailingStep(disabled, Run(disabled, init), e, i);
    }
  }

  lemma NothingFailedYet(disabled: bool, i: nat)
    ensures !CallFailed(disabled, [], i) && !RepliedUnstampably(disabled, [], i)
  {
  }

  lemma FailingStep(disabled: bool, s: State, e: Event, i: nat)
    requires RepliedUnstampably(disabled, s.replies, i) ==> HasFailed(s, i)
    ensures var s' := Step(disabled, s, e);
            && (RepliedUnstampably(disabled, s.replies, i) ==> RepliedUnstampably(disabled, s'.replies, i))
            && (HasFailed(s', i) <==>
                || HasFailed(s, i)
                || (e == ApiFails(i) && InPhase(s, i, Calling))
                || RepliedUnstampably(disabled, s'.replies, i))
  {
    hide RepliedUnstampably, Stamped, Unstampable, SkipsCache;
    if e.ApiReplies? && InPhase(s, e.load, Calling) {
      var request := s.loads[e.load].request;
      var r := Reply(e.load, request, e.body, e.headers);
      RepliedGrows(disabled, s.replies, r, i);
      StampedIs(request.headers, e.body, e.headers, e.now);
      OneReply(disabled, r, i);
    }
  }

  lemma OneReply(disabled: bool, r: Reply, i: nat)
    ensures RepliedUnstampably(disabled, [r], i) <==>
            r.load == i && !SkipsCache(disabled, r.request) && !r.request.headers && Unstampable(r.body)
  {
    assert [r][0] == r;
  }

  lemma StampedIs(headers: bool, body: Json, headerText: string, now: int)
    ensures Stamped(Reduce(headers, body, headerText), now).None? <==> !headers && Unstampable(body)
  {
  }
}
