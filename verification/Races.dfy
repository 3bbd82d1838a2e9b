/** Timers that race replies: `withTimeout` (`src/lib/loaders/helpers.ts`), the cache read
    (`src/lib/cache.ts`) and the rate limiter (`src/lib/rateLimiter.ts`). */
module Races {
  import opened Wrappers

  datatype Outcome = Resolved(value: string) | Rejected(error: string)

  const TIMEOUT: Outcome := Rejected("timeout")

  // ---------------------------------------------------------------- a promise with a timeout

  /** What can happen: the timer fires; the reply arrives and settles the promise at once, or (a
      compressed cache entry) has to be inflated first; the inflation ends. */
  datatype Event = Timer | Reply(outcome: Outcome) | CompressedReply | Inflated(outcome: Outcome)

  /** `timeoutId` is whether the variable is set; `cleared` whether the timer was cancelled. */
  datatype Race = Race(timeoutId: bool, cleared: bool, inflating: bool, settled: Option<Outcome>)

  const STARTED := Race(true, false, false, None)

  function Settle(r: Race, outcome: Outcome): Race {
    if r.settled.Some? then r else r.(settled := Some(outcome))
  }

  function Step(r: Race, e: Event): Race {
    match e
    case Timer => if r.cleared || !r.timeoutId then r else Settle(r.(timeoutId := false), TIMEOUT)
    case Reply(outcome) => if !r.timeoutId then r else Settle(r.(cleared := true), outcome)
    case CompressedReply => if !r.timeoutId then r else r.(cleared := true, inflating := true)
    case Inflated(outcome) => if !r.inflating then r else Settle(r.(inflating := false), outcome)
  }

  /** The promise with its handlers. */
  class TimedPromise {
    var timeoutId: bool
    var cleared: bool
    var inflating: bool
    var settled: Option<Outcome>

    ghost function State(): Race
      reads this
    {
      Race(timeoutId, cleared, inflating, settled)
    }

    constructor ()
      ensures State() == STARTED
    {
      timeoutId, cleared, inflating, settled := true, false, false, None;
    }

    method SettleWith(outcome: Outcome)
      modifies this`settled
      ensures State() == Settle(old(State()), outcome)
    {
      if settled.None? {
        settled := Some(outcome);
      }
    }

    method OnTimer()
      modifies this
      ensures State() == Step(old(State()), Timer)
    {
      if cleared || !timeoutId {
        return;  // a cancelled timer does not fire, a timer fires once
      }
      timeoutId := false;
      SettleWith(TIMEOUT);
    }

    method OnReply(outcome: Outcome)
      modifies this
      ensures State() == Step(old(State()), Reply(outcome))
    {
      if !timeoutId {
        return;  // already timed out
      }
      cleared := true;
      SettleWith(outcome);
    }

    method OnCompressedReply()
      modifies this
      ensures State() == Step(old(State()), CompressedReply)
    {
      if !timeoutId {
        return;  // already timed out
      }
      cleared := true;
      inflating := true;
    }

    method OnInflated(outcome: Outcome)
      modifies this
      ensures State() == Step(old(State()), Inflated(outcome))
    {
      if inflating {
        inflating := false;
        SettleWith(outcome);
      }
    }
  }

  function Run(events: seq<Event>): Race {
    if events == [] then STARTED else Step(Run(events[..|events| - 1]), events[|events| - 1])
  }

  /** The reply arrives once at most. */
  ghost predicate OneReply(events: seq<Event>) {
    forall i, j | 0 <= i < j < |events| :: !(IsReply(events[i]) && IsReply(events[j]))
  }

  predicate IsReply(e: Event) { e.Reply? || e.CompressedReply? }

  /** The first inflation to end. */
  function FirstInflated(events: seq<Event>): Option<Outcome> {
    if events == [] then None
    else if events[0].Inflated? then Some(events[0].outcome)
    else FirstInflated(events[1..])
  }

  /** Who comes first decides: the timer, the reply, or the inflation of a compressed reply.  An
      inflation that no reply asked for does not take part. */
  function Decided(events: seq<Event>): Option<Outcome> {
    if events == [] then None
    else match events[0]
      case Timer => Some(TIMEOUT)
      case Reply(outcome) => Some(outcome)
      case CompressedReply => FirstInflated(events[1..])
      case Inflated(_) => Decided(events[1..])
  }

  function RunFrom(r: Race, events: seq<Event>): Race
    decreases events
  {
    if events == [] then r else RunFrom(Step(r, events[0]), events[1..])
  }

  lemma {:induction false} RunFromStart(r: Race, events: seq<Event>, more: seq<Event>)
    ensures RunFrom(r, events + more) == RunFrom(RunFrom(r, events), more)
    decreases events
  {
    if events == [] {
      assert events + more == more;
    } else {
      assert (events + more)[1..] == events[1..] + more;
      RunFromStart(Step(r, events[0]), events[1..], more);
    }
  }

  lemma {:induction false} RunIsRunFrom(events: seq<Event>)
    ensures Run(events) == RunFrom(STARTED, events)
  {
    if events != [] {
      var init, last := events[..|events| - 1], [events[|events| - 1]];
      RunIsRunFrom(init);
      RunFromStart(STARTED, init, last);
      assert events == init + last;
      assert RunFrom(RunFrom(STARTED, init), last) == Step(RunFrom(STARTED, init), last[0]);
    }
  }

  /** Once settled, a race stays as it is settled. */
  lemma {:induction false} SettledForGood(r: Race, events: seq<Event>)
    requires r.settled.Some?
    ensures RunFrom(r, events).settled == r.settled
    decreases events
  {
    if events != [] {
      SettledForGood(Step(r, events[0]), events[1..]);
    }
  }

  lemma {:induction false} InflationDecides(r: Race, events: seq<Event>)
    requires r.timeoutId && r.cleared && r.inflating && r.settled.None?
    requires forall i | 0 <= i < |events| :: !IsReply(events[i])
    ensures RunFrom(r, events).settled == FirstInflated(events)
    decreases events
  {
    if events != [] {
      assert !IsReply(events[0]);
      if events[0].Inflated? {
        SettledForGood(Step(r, events[0]), events[1..]);
      } else {
        InflationDecides(r, events[1..]);
      }
    }
  }

  lemma {:induction false} DecidedFrom(events: seq<Event>)
    requires OneReply(events)
    ensures RunFrom(STARTED, events).settled == Decided(events)
  {
    if events != [] {
      var r := Step(STARTED, events[0]);
      match events[0]
      case Timer => SettledForGood(r, events[1..]);
      case Reply(_) => SettledForGood(r, events[1..]);
      case CompressedReply =>
        assert forall j | 1 <= j < |events| :: !IsReply(events[j]);
        InflationDecides(r, events[1..]);
      case Inflated(_) => DecidedFrom(events[1..]);
    }
  }

  /** Over every interleaving the promise is settled by whoever comes first, and by nobody else. */
  lemma FirstEventDecides(events: seq<Event>)
    requires OneReply(events)
    ensures Run(events).settled == Decided(events)
  {
    RunIsRunFrom(events);
    DecidedFrom(events);
  }

  /** And once settled it stays so, whatever else happens. */
  lemma LateEventsAreIgnored(events: seq<Event>, more: seq<Event>)
    requires Run(events).settled.Some?
    ensures Run(events + more).settled == Run(events).settled
  {
    RunIsRunFrom(events);
    RunIsRunFrom(events + more);
    RunFromStart(STARTED, events, more);
    SettledForGood(Run(events), more);
  }

  /** `withTimeout`, or the cache read, over a whole schedule of events: what its promise is settled with
      in the end. */
  method Await(events: seq<Event>) returns (settled: Option<Outcome>)
    requires OneReply(events)
    ensures settled == Decided(events)
  {
    var p := new TimedPromise();
    for i := 0 to |events|
      invariant fresh(p) && p.State() == Run(events[..i])
    {
      assert events[..i + 1][..i] == events[..i];
      match events[i]
      case Timer => p.OnTimer();
      case Reply(outcome) => p.OnReply(outcome);
      case CompressedReply => p.OnCompressedReply();
      case Inflated(outcome) => p.OnInflated(outcome);
    }
    assert events[..|events|] == events;
    FirstEventDecides(events);
    settled := p.settled;
  }

  // ---------------------------------------------------------------- the rate limiter

  /** The limiter's store answers too late, allows the request, finds the limit hit, or its set-up
      throws. */
  datatype Verdict = TimesOut | Allows | Hits | Throws

  /** A request: whether the timer still runs, whether the awaited promise is settled, and how often
      `next` was called and a 429 was sent. */
  datatype Request = Request(timeoutId: bool, cleared: bool, settled: bool, nexts: nat, rejections: nat)

  const ARRIVED := Request(true, false, false, 0, 0)

  /** Settling the promise runs the `finally` block, once. */
  function Continue(r: Request): Request {
    if r.settled then r else r.(settled := true, nexts := r.nexts + 1)
  }

  function Judge(r: Request, v: Verdict): Request {
    match v
    case TimesOut => if r.cleared || !r.timeoutId then r else Continue(r.(timeoutId := false))
    case Allows => Continue(r.(cleared := r.cleared || r.timeoutId))
    case Hits => r.(cleared := r.cleared || r.timeoutId, rejections := r.rejections + 1)
    case Throws => Continue(r)
  }

  class RateLimiter {
    var timeoutId: bool
    var cleared: bool
    var settled: bool
    var nexts: nat
    var rejections: nat

    ghost function State(): Request
      reads this
    {
      Request(timeoutId, cleared, settled, nexts, rejections)
    }

    /** A request arrives; with no limit configured it goes straight on. */
    constructor (limited: bool)
      ensures State() == if limited then ARRIVED else Request(false, false, true, 1, 0)
    {
      timeoutId, cleared, rejections := limited, false, 0;
      settled, nexts := !limited, if limited then 0 else 1;
    }

    method Finally()
      modifies this`settled, this`nexts
      ensures State() == Continue(old(State()))
    {
      if !settled {
        settled := true;
        nexts := nexts + 1;
      }
    }

    method OnTimer()
      modifies this
      ensures State() == Judge(old(State()), TimesOut)
    {
      if !cleared && timeoutId {
        timeoutId := false;
        Finally();
      }
    }

    method ResetTimer()
      modifies this`cleared
      ensures cleared == (old(cleared) || timeoutId)
    {
      if timeoutId {
        cleared := true;
      }
    }

    method RateLimitHit()
      modifies this
      ensures State() == Judge(old(State()), Hits)
    {
      ResetTimer();
      rejections := rejections + 1;
    }

    method RequestAllowed()
      modifies this
      ensures State() == Judge(old(State()), Allows)
    {
      ResetTimer();
      Finally();
    }

    method OnThrow()
      modifies this
      ensures State() == Judge(old(State()), Throws)
    {
      Finally();
    }
  }

  function JudgeAll(verdicts: seq<Verdict>): Request {
    if verdicts == [] then ARRIVED else Judge(JudgeAll(verdicts[..|verdicts| - 1]), verdicts[|verdicts| - 1])
  }

  /** The store gives one verdict at most, besides the timer. */
  ghost predicate OneVerdict(verdicts: seq<Verdict>) {
    forall i, j | 0 <= i < j < |verdicts| :: verdicts[i].TimesOut? || verdicts[j].TimesOut?
  }

  /** Over every interleaving, the request goes on exactly once if the first thing to happen is not a
      hit limit, and never if it is. */
  lemma {:induction false} FirstVerdictDecides(verdicts: seq<Verdict>)
    requires OneVerdict(verdicts)
    ensures JudgeAll(verdicts).nexts == if verdicts != [] && !verdicts[0].Hits? then 1 else 0
    ensures JudgeAll(verdicts).settled <==> verdicts != [] && !verdicts[0].Hits?
    ensures verdicts != [] && verdicts[0].Hits? ==> JudgeAll(verdicts).cleared
  {
    if verdicts != [] {
      var init, last := verdicts[..|verdicts| - 1], verdicts[|verdicts| - 1];
      if init == [] {
        assert verdicts[0] == last && JudgeAll(init) == ARRIVED;
      } else {
        assert verdicts[0] == init[0];
        assert verdicts[0].Hits? ==> last.TimesOut?;
        assert forall i | 0 <= i < |init| :: init[i] == verdicts[i];
        FirstVerdictDecides(init);
      }
    }
  }

  /** A 429 is sent when a hit limit is reported, once, be it too late. */
  lemma {:induction false} HitsAreAnswered(verdicts: seq<Verdict>)
    requires OneVerdict(verdicts)
    ensures JudgeAll(verdicts).rejections == if exists i | 0 <= i < |verdicts| :: verdicts[i].Hits? then 1 else 0
  {
    if verdicts != [] {
      var init, last := verdicts[..|verdicts| - 1], verdicts[|verdicts| - 1];
      HitsAreAnswered(init);
      assert verdicts == init + [last];
      assert forall i | 0 <= i < |init| :: init[i] == verdicts[i];
      if last.Hits? {
        assert forall i | 0 <= i < |init| :: verdicts[i].TimesOut?;
        assert verdicts[|init|].Hits?;
      }
    }
  }

  /** So a request goes on and is also answered with a 429 exactly when the timer comes first and a
      hit limit is reported after all. */
  lemma LateHitAnswersTwice(verdicts: seq<Verdict>)
    requires OneVerdict(verdicts)
    ensures JudgeAll(verdicts).nexts == 1 && JudgeAll(verdicts).rejections == 1
            <==> verdicts != [] && verdicts[0].TimesOut? && exists i | 0 <= i < |verdicts| :: verdicts[i].Hits?
  {
    FirstVerdictDecides(verdicts);
    HitsAreAnswered(verdicts);
    if exists i | 0 <= i < |verdicts| :: verdicts[i].Hits? {
      var i :| 0 <= i < |verdicts| && verdicts[i].Hits?;
      assert i > 0 ==> verdicts[0].TimesOut?;
    }
  }

  /** `rateLimiterMiddleware` over a whole schedule: how often `next` was called and a 429 was sent in the
      end. */
  method RateLimiterMiddleware(limited: bool, verdicts: seq<Verdict>) returns (nexts: nat, rejections: nat)
    requires OneVerdict(verdicts)
    ensures nexts == if limited && (verdicts == [] || verdicts[0].Hits?) then 0 else 1
    ensures rejections == if limited && exists i | 0 <= i < |verdicts| :: verdicts[i].Hits? then 1 else 0
  {
    var r := new RateLimiter(limited);
    if limited {
      for i := 0 to |verdicts|
        invariant fresh(r) && r.State() == JudgeAll(verdicts[..i])
      {
        assert verdicts[..i + 1][..i] == verdicts[..i];
        match verdicts[i]
        case TimesOut => r.OnTimer();
        case Allows => r.RequestAllowed();
        case Hits => r.RateLimitHit();
        case Throws => r.OnThrow();
      }
      assert verdicts[..|verdicts|] == verdicts;
      FirstVerdictDecides(verdicts);
      HitsAreAnswered(verdicts);
    }
    nexts, rejections := r.nexts, r.rejections;
  }
}
