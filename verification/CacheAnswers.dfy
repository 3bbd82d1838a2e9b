/** When the loads of `CacheRuns` end, and with what: every claim is over whole runs, in terms of the events
    that happened and of what stood before each. */
module CacheAnswers {
  import opened Wrappers
  import opened CacheRuns

  /** The state after the first `n` events. */
  function After(disabled: bool, events: seq<Event>, n: nat): State
    requires n <= |events|
  {
    Run(disabled, events[..n])
  }

  lemma AfterNext(disabled: bool, events: seq<Event>, n: nat)
    requires n < |events|
    ensures After(disabled, events, n + 1) == Step(disabled, After(disabled, events, n), events[n])
  {
    assert events[..n + 1][..n] == events[..n];
  }

  lemma AfterAll(disabled: bool, events: seq<Event>)
    ensures After(disabled, events, |events|) == Run(disabled, events)
  {
    assert events[..|events|] == events;
  }

  // ---------------------------------------------------------------- since an event

  /** Of the first `len` events one begins something, and none after it ends it. */
  ghost predicate Since(len: nat, begins: nat -> bool, ends: nat -> bool) {
    exists n | 0 <= n < len :: begins(n) && forall m | n < m < len :: !ends(m)
  }

  lemma SinceGrows(len: nat, begins: nat -> bool, ends: nat -> bool)
    ensures Since(len + 1, begins, ends) <==> begins(len) || (Since(len, begins, ends) && !ends(len))
  {
  }

  // ---------------------------------------------------------------- loads only advance

  function Rank(phase: Phase): nat {
    match phase
    case Reading => 0
    case Calling => 1
    case _ => 2
  }

  ghost predicate Advances(s: State, s': State) {
    && |s.loads| <= |s'.loads|
    && forall i | 0 <= i < |s.loads| ::
         && s.loads[i].request == s'.loads[i].request
         && Rank(s.loads[i].phase) <= Rank(s'.loads[i].phase)
         && (s.loads[i].phase.Done? || s.loads[i].phase.Failed? ==> s.loads[i] == s'.loads[i])
  }

  lemma StepAdvances(disabled: bool, s: State, e: Event)
    ensures Advances(s, Step(disabled, s, e))
  {
  }

  /** No load changes its request or goes back, and one that has ended stays as it ended. */
  lemma {:induction false} LoadsAdvance(disabled: bool, events: seq<Event>, n: nat, m: nat)
    requires n <= m <= |events|
    ensures Advances(After(disabled, events, n), After(disabled, events, m))
    decreases m
  {
    hide Step, After;
    if n < m {
      LoadsAdvance(disabled, events, n, m - 1);
      AfterNext(disabled, events, m - 1);
      StepAdvances(disabled, After(disabled, events, m - 1), events[m - 1]);
    }
  }

  // ---------------------------------------------------------------- starting, reading and calling

  /** The requests of the loads, in the order they start. */
  function Started(events: seq<Event>): seq<Request> {
    if events == [] then []
    else
      var e := events[|events| - 1];
      Started(events[..|events| - 1]) + if e.Start? then [e.request] else []
  }

  /** Every load started is there, with its own request. */
  lemma {:induction false} LoadsAreTheStarted(disabled: bool, events: seq<Event>)
    ensures var s := Run(disabled, events);
            |s.loads| == |Started(events)| && forall i | 0 <= i < |s.loads| :: s.loads[i].request == Started(events)[i]
  {
    if events != [] {
      LoadsAreTheStarted(disabled, events[..|events| - 1]);
      StepAdvances(disabled, Run(disabled, events[..|events| - 1]), events[|events| - 1]);
    }
  }

  /** Event `n` starts load `i`, which reads the cache. */
  function StartsReading(disabled: bool, events: seq<Event>, i: nat): nat -> bool {
    (n: nat) => n < |events| && events[n].Start? && |After(disabled, events, n).loads| == i
         && !Bypasses(disabled, events[n].request)
  }

  function EndsRead(events: seq<Event>, i: nat): nat -> bool {
    (n: nat) => n < |events| && events[n].ReadEnds? && events[n].load == i
  }

  /** Event `n` has load `i` call the API: it starts and bypasses the cache, or its read ends and finds
      nothing, or fails. */
  function BeginsCall(disabled: bool, events: seq<Event>, i: nat): nat -> bool {
    (n: nat) => n < |events| && CallBegins(disabled, After(disabled, events, n), events[n], i)
  }

  predicate CallBegins(disabled: bool, s: State, e: Event, i: nat) {
    match e
    case Start(r) => |s.loads| == i && Bypasses(disabled, r)
    case ReadEnds(j, delivered) =>
      && j == i && InPhase(s, i, Reading)
      && !(delivered && StoreKey(s.loads[i].request.key, s.loads[i].request.headers) in s.store)
    case _ => false
  }

  function EndsCall(events: seq<Event>, i: nat): nat -> bool {
    (n: nat) => n < |events| && CallEnds(events[n], i)
  }

  predicate CallEnds(e: Event, i: nat) {
    (e.ApiReplies? || e.ApiFails?) && e.load == i
  }

  /** Over every run, a load waits for the cache exactly when it has started to and its read has not ended. */
  lemma LoadsReadExactly(disabled: bool, events: seq<Event>, i: nat)
    ensures InPhase(Run(disabled, events), i, Reading) <==>
            Since(|events|, StartsReading(disabled, events, i), EndsRead(events, i))
  {
    hide Since;
    ReadingUpTo(disabled, events, i, |events|);
    AfterAll(disabled, events);
  }

  lemma {:induction false} ReadingUpTo(disabled: bool, events: seq<Event>, i: nat, n: nat)
    requires n <= |events|
    ensures InPhase(After(disabled, events, n), i, Reading) <==>
            Since(n, StartsReading(disabled, events, i), EndsRead(events, i))
  {
    if n > 0 {
      hide After, Since;
      ReadingUpTo(disabled, events, i, n - 1);
      AfterNext(disabled, events, n - 1);
      SinceGrows(n - 1, StartsReading(disabled, events, i), EndsRead(events, i));
      ReadingStep(disabled, After(disabled, events, n - 1), events[n - 1], i);
    }
  }

  lemma ReadingStep(disabled: bool, s: State, e: Event, i: nat)
    ensures InPhase(Step(disabled, s, e), i, Reading) <==>
            || (e.Start? && |s.loads| == i && !Bypasses(disabled, e.request))
            || (InPhase(s, i, Reading) && !(e.ReadEnds? && e.load == i))
  {
  }

  /** Over every run, a load's call is under way exactly when it has begun and neither a reply to it nor its
      failure has come since. */
  lemma LoadsCallExactly(disabled: bool, events: seq<Event>, i: nat)
    ensures InPhase(Run(disabled, events), i, Calling) <==>
            Since(|events|, BeginsCall(disabled, events, i), EndsCall(events, i))
  {
    hide Since;
    CallingUpTo(disabled, events, i, |events|);
    AfterAll(disabled, events);
  }

  lemma {:induction false} CallingUpTo(disabled: bool, events: seq<Event>, i: nat, n: nat)
    requires n <= |events|
    ensures InPhase(After(disabled, events, n), i, Calling) <==>
            Since(n, BeginsCall(disabled, events, i), EndsCall(events, i))
  {
    if n > 0 {
      hide After, Since;
      CallingUpTo(disabled, events, i, n - 1);
      AfterNext(disabled, events, n - 1);
      SinceGrows(n - 1, BeginsCall(disabled, events, i), EndsCall(events, i));
      CallingStep(disabled, After(disabled, events, n - 1), events[n - 1], i);
    }
  }

  lemma CallingStep(disabled: bool, s: State, e: Event, i: nat)
    ensures InPhase(Step(disabled, s, e), i, Calling) <==>
            CallBegins(disabled, s, e, i) || (InPhase(s, i, Calling) && !CallEnds(e, i))
  {
  }

  // ---------------------------------------------------------------- how calls end

  /** The load has ended with the reply: as it came when it bypasses the cache, else with the stamp of
      `now`, and failed where the reply takes no stamp. */
  predicate EndedWith(disabled: bool, l: Load, reply: Reply, now: int) {
    && l.request == reply.request
    && if Bypasses(disabled, reply.request) then l.phase == Done(reply.Reduced())
       else if !reply.request.headers && Unstampable(reply.body) then l.phase == Failed
       else
         && l.phase.Done?
         && Unstamped(l.phase.data) == Unstamped(reply.Reduced())
         && (l.phase.data.Pair? <==> reply.request.headers)
         && StampsSay(l.phase.data, now)
  }

  /** Over every run, a reply that comes while its call is under way ends the load for good, is kept, and
      its data is on its way to the store when the load is a caching one that did not fail. */
  lemma CallsEndWithTheirReply(
    disabled: bool, events: seq<Event>, n: nat, i: nat, body: Json, headers: string, now: int)
    requires n < |events| && events[n] == ApiReplies(i, body, headers, now)
    requires InPhase(After(disabled, events, n), i, Calling)
    ensures var reply := Reply(i, After(disabled, events, n).loads[i].request, body, headers);
            && i < |Run(disabled, events).loads|
            && EndedWith(disabled, Run(disabled, events).loads[i], reply, now)
            && After(disabled, events, n + 1).replies == After(disabled, events, n).replies + [reply]
            && After(disabled, events, n + 1).writes == After(disabled, events, n).writes +
                 Queued(disabled, reply.request, Run(disabled, events).loads[i].phase)
  {
    var s := After(disabled, events, n);
    AfterNext(disabled, events, n);
    AfterAll(disabled, events);
    LoadsAdvance(disabled, events, n + 1, |events|);
    ReplyEnds(disabled, s, i, body, headers, now);
  }

  /** The write of a caching load that ended with data. */
  function Queued(disabled: bool, request: Request, phase: Phase): seq<Write> {
    if phase.Done? && !Bypasses(disabled, request) then [Write(StoreKey(request.key, request.headers), phase.data)]
    else []
  }

  lemma ReplyEnds(disabled: bool, s: State, i: nat, body: Json, headers: string, now: int)
    requires InPhase(s, i, Calling)
    ensures var reply, s' := Reply(i, s.loads[i].request, body, headers),
                             Step(disabled, s, ApiReplies(i, body, headers, now));
            && |s'.loads| == |s.loads|
            && EndedWith(disabled, s'.loads[i], reply, now)
            && s'.replies == s.replies + [reply]
            && s'.writes == s.writes + Queued(disabled, reply.request, s'.loads[i].phase)
  {
    var reply := Reply(i, s.loads[i].request, body, headers);
    StampedIs(reply.request.headers, body, headers, now);
    if Stamped(reply.Reduced(), now).Some? {
      StampingKeepsData(reply.Reduced(), now);
    }
  }

  /** Over every run, a failure of a call under way ends the load for good. */
  lemma CallsEndWithTheirFailure(disabled: bool, events: seq<Event>, n: nat, i: nat)
    requires n < |events| && events[n] == ApiFails(i)
    requires InPhase(After(disabled, events, n), i, Calling)
    ensures InPhase(Run(disabled, events), i, Failed)
  {
    AfterNext(disabled, events, n);
    AfterAll(disabled, events);
    LoadsAdvance(disabled, events, n + 1, |events|);
  }

  /** Each reply kept is to the call of a load that has ended, as it came if the load bypasses the cache;
      no load has two. */
  ghost predicate RepliesEnd(disabled: bool, s: State) {
    && (forall k | 0 <= k < |s.replies| :: RepliedLoadEnded(disabled, s, s.replies[k]))
    && (forall k, m | 0 <= k < m < |s.replies| :: s.replies[k].load != s.replies[m].load)
  }

  predicate RepliedLoadEnded(disabled: bool, s: State, reply: Reply) {
    && reply.load < |s.loads| && s.loads[reply.load].request == reply.request
    && (s.loads[reply.load].phase.Done? || s.loads[reply.load].phase.Failed?)
    && (Bypasses(disabled, reply.request) ==> s.loads[reply.load].phase == Done(reply.Reduced()))
  }

  lemma {:induction false} RepliedLoadsHaveEnded(disabled: bool, events: seq<Event>)
    ensures RepliesEnd(disabled, Run(disabled, events))
  {
    if events != [] {
      var s, e := Run(disabled, events[..|events| - 1]), events[|events| - 1];
      RepliedLoadsHaveEnded(disabled, events[..|events| - 1]);
      StepAdvances(disabled, s, e);
      RepliesStep(disabled, s, e);
    }
  }

  lemma RepliesStep(disabled: bool, s: State, e: Event)
    requires RepliesEnd(disabled, s) && Advances(s, Step(disabled, s, e))
    ensures RepliesEnd(disabled, Step(disabled, s, e))
  {
    var s' := Step(disabled, s, e);
    if e.ApiReplies? && InPhase(s, e.load, Calling) {
      ReplyEnds(disabled, s, e.load, e.body, e.headers, e.now);
    } else {
      assert s'.replies == s.replies;
    }
    hide Step;
    forall k | 0 <= k < |s.replies| ensures RepliedLoadEnded(disabled, s', s.replies[k]) {
      assert RepliedLoadEnded(disabled, s, s.replies[k]);
    }
  }

  // ---------------------------------------------------------------- what the store holds, and who is served

  /** What an event stores under `at`. */
  function Written(s: State, e: Event, at: string): Option<Data> {
    if e.WriteEnds? && e.stored && e.write < |s.writes| && s.writes[e.write].at == at
    then Some(s.writes[e.write].payload)
    else None
  }

  function WritesAt(disabled: bool, events: seq<Event>, at: string, n: nat): Option<Data> {
    if n < |events| then Written(After(disabled, events, n), events[n], at) else None
  }

  function Stores(disabled: bool, events: seq<Event>, at: string, data: Data): nat -> bool {
    (n: nat) => WritesAt(disabled, events, at, n) == Some(data)
  }

  /** Event `n` expires the entry under `at`, or stores another there. */
  function Replaces(disabled: bool, events: seq<Event>, at: string): nat -> bool {
    (n: nat) => n < |events| && (events[n] == Expire(at) || WritesAt(disabled, events, at, n).Some?)
  }

  predicate Holds(s: State, at: string, data: Data) {
    at in s.store && s.store[at] == data
  }

  /** Over every run, the store holds data exactly when a write of it was stored, and no expiry and no other
      stored write came since. */
  lemma {:induction false} StoreHoldsExactly(disabled: bool, events: seq<Event>, at: string, data: Data, n: nat)
    requires n <= |events|
    ensures Holds(After(disabled, events, n), at, data) <==>
            Since(n, Stores(disabled, events, at, data), Replaces(disabled, events, at))
  {
    if n > 0 {
      hide After, Since;
      StoreHoldsExactly(disabled, events, at, data, n - 1);
      AfterNext(disabled, events, n - 1);
      SinceGrows(n - 1, Stores(disabled, events, at, data), Replaces(disabled, events, at));
      StoreStep(disabled, After(disabled, events, n - 1), events[n - 1], at, data);
      assert WritesAt(disabled, events, at, n - 1) == Written(After(disabled, events, n - 1), events[n - 1], at);
    }
  }

  lemma StoreStep(disabled: bool, s: State, e: Event, at: string, data: Data)
    ensures Holds(Step(disabled, s, e), at, data) <==>
            || Written(s, e, at) == Some(data)
            || (Holds(s, at, data) && !(e == Expire(at) || Written(s, e, at).Some?))
  {
  }

  /** Over every run, a load whose read is delivered ends with what the store holds for it, for good and
      without ever a call, exactly when a write of that was stored under its store key and nothing has
      replaced it; when there is none, its call begins. */
  lemma LoadsAreServedExactly(disabled: bool, events: seq<Event>, m: nat, j: nat, data: Data)
    requires m < |events| && events[m] == ReadEnds(j, true) && InPhase(After(disabled, events, m), j, Reading)
    ensures var r := After(disabled, events, m).loads[j].request;
            var held := Since(m, Stores(disabled, events, StoreKey(r.key, r.headers), data),
                              Replaces(disabled, events, StoreKey(r.key, r.headers)));
            && (InPhase(After(disabled, events, m + 1), j, Done(data)) <==> held)
            && (held ==> InPhase(Run(disabled, events), j, Done(data)))
            && (held ==> forall n | 0 <= n <= |events| :: !InPhase(After(disabled, events, n), j, Calling))
            && (StoreKey(r.key, r.headers) !in After(disabled, events, m).store ==>
                  InPhase(After(disabled, events, m + 1), j, Calling))
  {
    hide Since, After, Run;
    var s := After(disabled, events, m);
    var r := s.loads[j].request;
    StoreHoldsExactly(disabled, events, StoreKey(r.key, r.headers), data, m);
    AfterNext(disabled, events, m);
    if InPhase(After(disabled, events, m + 1), j, Done(data)) {
      NeverCalls(disabled, events, m, j, data);
    }
  }

  lemma NeverCalls(disabled: bool, events: seq<Event>, m: nat, j: nat, data: Data)
    requires m < |events| && InPhase(After(disabled, events, m), j, Reading)
    requires InPhase(After(disabled, events, m + 1), j, Done(data))
    ensures InPhase(Run(disabled, events), j, Done(data))
    ensures forall n | 0 <= n <= |events| :: !InPhase(After(disabled, events, n), j, Calling)
  {
    AfterAll(disabled, events);
    hide After, Run;
    LoadsAdvance(disabled, events, m + 1, |events|);
    forall n | 0 <= n <= |events| ensures !InPhase(After(disabled, events, n), j, Calling) {
      if n <= m {
        LoadsAdvance(disabled, events, n, m);
      } else {
        LoadsAdvance(disabled, events, m + 1, n);
      }
    }
  }

  /** A reply to a caching load that was stored and not replaced since serves every later load with the
      same store key: it ends with that reply, stamped when it came, and never calls. */
  lemma StoredRepliesAreServed(
    disabled: bool, events: seq<Event>, i: nat, data: Data, a: nat, b: nat, m: nat, j: nat)
    requires a < b < m < |events|
    requires events[a].ApiReplies? && events[a].load == i && InPhase(After(disabled, events, a), i, Calling)
    requires InPhase(After(disabled, events, a + 1), i, Done(data))
    requires events[m] == ReadEnds(j, true) && InPhase(After(disabled, events, m), j, Reading)
    requires var r, l := After(disabled, events, a).loads[i].request, After(disabled, events, m).loads[j].request;
             && !Bypasses(disabled, r) && StoreKey(l.key, l.headers) == StoreKey(r.key, r.headers)
             && WritesAt(disabled, events, StoreKey(r.key, r.headers), b) == Some(data)
             && forall n | b < n < m :: !Replaces(disabled, events, StoreKey(r.key, r.headers))(n)
    ensures InPhase(Run(disabled, events), j, Done(data))
    ensures forall n | 0 <= n <= |events| :: !InPhase(After(disabled, events, n), j, Calling)
    ensures var r, e := After(disabled, events, a).loads[i].request, events[a];
            EndedWith(disabled, Load(r, Done(data)), Reply(i, r, e.body, e.headers), e.now)
  {
    hide Step, Run, EndedWith;
    var r, e := After(disabled, events, a).loads[i].request, events[a];
    AfterAll(disabled, events);
    LoadsAdvance(disabled, events, a, |events|);
    LoadsAdvance(disabled, events, a + 1, |events|);
    CallsEndWithTheirReply(disabled, events, a, i, e.body, e.headers, e.now);
    assert Run(disabled, events).loads[i] == Load(r, Done(data));
    var begins, ends := Stores(disabled, events, StoreKey(r.key, r.headers), data),
                        Replaces(disabled, events, StoreKey(r.key, r.headers));
    assert begins(b);
    assert Since(m, begins, ends);
    LoadsAreServedExactly(disabled, events, m, j, data);
  }

  // ---------------------------------------------------------------- no write is lost

  /** The writes queued by the replies of a run. */
  function AllQueued(disabled: bool, events: seq<Event>): seq<Write> {
    if events == [] then []
    else
      var init, e := events[..|events| - 1], events[|events| - 1];
      AllQueued(disabled, init) + QueuedBy(disabled, Run(disabled, init), Run(disabled, events), e)
  }

  function QueuedBy(disabled: bool, s: State, s': State, e: Event): seq<Write> {
    if e.ApiReplies? && InPhase(s, e.load, Calling) && e.load < |s'.loads|
    then Queued(disabled, s'.loads[e.load].request, s'.loads[e.load].phase)
    else []
  }

  /** The writes that ended in a run, stored or not. */
  function AllEnded(disabled: bool, events: seq<Event>): seq<Write> {
    if events == [] then []
    else
      var init, e := events[..|events| - 1], events[|events| - 1];
      AllEnded(disabled, init) + EndedBy(Run(disabled, init), e)
  }

  function EndedBy(s: State, e: Event): seq<Write> {
    if e.WriteEnds? && e.write < |s.writes| then [s.writes[e.write]] else []
  }

  /** Over every run, each write queued has ended once or is still on its way, and none comes from nowhere. */
  lemma {:induction false} WritesAreConserved(disabled: bool, events: seq<Event>)
    ensures multiset(Run(disabled, events).writes) + multiset(AllEnded(disabled, events)) ==
            multiset(AllQueued(disabled, events))
  {
    if events != [] {
      var init, e := events[..|events| - 1], events[|events| - 1];
      WritesAreConserved(disabled, init);
      WritesStep(disabled, Run(disabled, init), e);
      Tallied(Run(disabled, init).writes, AllEnded(disabled, init), AllQueued(disabled, init),
              Run(disabled, events).writes, EndedBy(Run(disabled, init), e),
              QueuedBy(disabled, Run(disabled, init), Run(disabled, events), e));
      assert AllEnded(disabled, events) == AllEnded(disabled, init) + EndedBy(Run(disabled, init), e);
      assert AllQueued(disabled, events) ==
             AllQueued(disabled, init) + QueuedBy(disabled, Run(disabled, init), Run(disabled, events), e);
    }
  }

  lemma Tallied(waiting: seq<Write>, ended: seq<Write>, queued: seq<Write>,
                waiting': seq<Write>, ends: seq<Write>, queues: seq<Write>)
    requires multiset(waiting) + multiset(ended) == multiset(queued)
    requires multiset(waiting') + multiset(ends) == multiset(waiting) + multiset(queues)
    ensures multiset(waiting') + multiset(ended + ends) == multiset(queued + queues)
  {
    assert multiset(ended + ends) == multiset(ended) + multiset(ends);
    assert multiset(queued + queues) == multiset(queued) + multiset(queues);
    forall x
      ensures (multiset(waiting') + multiset(ended + ends))[x] == multiset(queued + queues)[x]
    {
      assert (multiset(waiting) + multiset(ended))[x] == multiset(queued)[x];
      assert (multiset(waiting') + multiset(ends))[x] == (multiset(waiting) + multiset(queues))[x];
    }
  }

  lemma WritesStep(disabled: bool, s: State, e: Event)
    ensures var s' := Step(disabled, s, e);
            multiset(s'.writes) + multiset(EndedBy(s, e)) ==
            multiset(s.writes) + multiset(QueuedBy(disabled, s, s', e))
  {
    if e.ApiReplies? && InPhase(s, e.load, Calling) {
      ReplyEnds(disabled, s, e.load, e.body, e.headers, e.now);
    } else if e.WriteEnds? && e.write < |s.writes| {
      assert s.writes == s.writes[..e.write] + [s.writes[e.write]] + s.writes[e.write + 1..];
    }
  }
}
