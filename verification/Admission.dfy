/** Admission of requests in internal/gangway/handler.go: classify, take a slot, take a token, call Docker, release.

    Any number of requests run interleaved. Each step below is one atomic action of one request: a channel send or
    receive, a reading of the clock, or a call of `allow` under the bucket's mutex. Reading the clock and calling
    `allow` are separate steps, so the instants reach the bucket in any order. */
module Admission {
  import opened Counting
  import opened Text
  import opened TokenBucket
  import opened TokenLaw

  /** 403, 503, 429, or whatever Docker's answer was turned into. */
  datatype Answer = Forbidden | Busy | RateLimited | Relayed

  datatype Request =
    | Arrived(allowed: bool)  // `allowed` is the verdict Classify will give
    | Classified
    | Holding                 // has a slot, has not read the clock
    | Timed(now: real)        // has a slot and an instant, has not called `allow`
    | Upstream                // its Docker call is in progress
    | Answered(answer: Answer)  // has answered, the deferred release is still to come
    | Finished(answer: Answer)

  /** `limits` is None where NewHandler builds no limiter. */
  datatype Config = Config(maxConcurrent: nat, limits: Option<Limits>, start: real)

  ghost predicate ValidConfig(c: Config) {
    c.maxConcurrent >= 1 && (c.limits.Some? ==> ValidLimits(c.limits.value))
  }

  /** What NewHandler builds. */
  function HandlerConfig(maxConcurrent: nat, maxRate: nat, start: real): Config {
    Config(maxConcurrent, if maxRate == 0 then None else Some(RequestLimits(maxRate, maxConcurrent)), start)
  }

  /** `slots` is the length of the inFlight channel; `calls` records the instants the bucket has been called with. */
  datatype State = State(slots: nat, level: Level, calls: seq<real>, requests: seq<Request>)

  datatype Step =
    | Arrive(allowed: bool)
    | Classify(i: nat)
    | Acquire(i: nat)
    | ReadClock(i: nat, now: real)
    | CallAllow(i: nat)
    | FinishUpstream(i: nat)
    | Release(i: nat)

  function Init(c: Config): State {
    State(0, Level(if c.limits.Some? then c.limits.value.capacity else 0.0, c.start), [], [])
  }

  /** A release is a channel receive: it would block on an empty channel. */
  predicate Enabled(s: State, step: Step) {
    match step
    case Arrive(_) => true
    case Classify(i) => i < |s.requests| && s.requests[i].Arrived?
    case Acquire(i) => i < |s.requests| && s.requests[i].Classified?
    case ReadClock(i, _) => i < |s.requests| && s.requests[i].Holding?
    case CallAllow(i) => i < |s.requests| && s.requests[i].Timed?
    case FinishUpstream(i) => i < |s.requests| && s.requests[i].Upstream?
    case Release(i) => i < |s.requests| && s.requests[i].Answered? && s.slots > 0
  }

  function Apply(c: Config, s: State, step: Step): State
    requires Enabled(s, step)
  {
    match step
    case Arrive(allowed) => s.(requests := s.requests + [Arrived(allowed)])
    case Classify(i) =>
      s.(requests := s.requests[i := if s.requests[i].allowed then Classified else Finished(Forbidden)])
    case Acquire(i) =>
      if s.slots < c.maxConcurrent then s.(slots := s.slots + 1, requests := s.requests[i := Holding])
      else s.(requests := s.requests[i := Finished(Busy)])
    case ReadClock(i, now) => s.(requests := s.requests[i := Timed(now)])
    case CallAllow(i) =>
      if c.limits.None? then s.(requests := s.requests[i := Upstream])
      else
        var now := s.requests[i].now;
        var (level, ok) := Take(c.limits.value, s.level, now);
        State(s.slots, level, s.calls + [now], s.requests[i := if ok then Upstream else Answered(RateLimited)])
    case FinishUpstream(i) => s.(requests := s.requests[i := Answered(Relayed)])
    case Release(i) => s.(slots := s.slots - 1, requests := s.requests[i := Finished(s.requests[i].answer)])
  }

  /** `steps` leads from `s` to `t`. */
  ghost predicate Run(c: Config, s: State, steps: seq<Step>, t: State)
    decreases |steps|
  {
    if steps == [] then s == t
    else Enabled(s, steps[0]) && Run(c, Apply(c, s, steps[0]), steps[1..], t)
  }

  predicate HoldsSlot(r: Request) {
    r.Holding? || r.Timed? || r.Upstream? || r.Answered?
  }

  predicate InUpstream(r: Request) {
    r.Upstream?
  }

  /** A Docker call was started for this request. */
  predicate Dispatched(r: Request) {
    r == Upstream || r == Answered(Relayed) || r == Finished(Relayed)
  }

  /** The bucket has been asked about this request. */
  predicate Metered(r: Request) {
    Dispatched(r) || r == Answered(RateLimited) || r == Finished(RateLimited)
  }

  /** A request that holds a slot is answered with neither 403 nor 503. */
  ghost predicate AnswersFit(s: State) {
    forall i :: 0 <= i < |s.requests| && s.requests[i].Answered? ==> s.requests[i].answer in {RateLimited, Relayed}
  }

  ghost predicate SlotsFit(c: Config, s: State) {
    s.slots == Count(s.requests, HoldsSlot) <= c.maxConcurrent
  }

  ghost predicate Inv(c: Config, s: State) {
    && SlotsFit(c, s)
    && AnswersFit(s)
    && (c.limits.Some? ==>
          && s.level == After(c.limits.value, c.start, s.calls)
          && Admitted(Decisions(c.limits.value, c.start, s.calls)) == Count(s.requests, Dispatched)
          && |s.calls| == Count(s.requests, Metered))
  }

  /** The request a step is about moves to `r`; the counts move by what the old and the new phase count for. */
  lemma CountsMove(s: State, i: nat, r: Request)
    requires i < |s.requests|
    ensures Count(s.requests[i := r], HoldsSlot) == Count(s.requests, HoldsSlot)
            - (if HoldsSlot(s.requests[i]) then 1 else 0) + if HoldsSlot(r) then 1 else 0
    ensures Count(s.requests[i := r], Dispatched) == Count(s.requests, Dispatched)
            - (if Dispatched(s.requests[i]) then 1 else 0) + if Dispatched(r) then 1 else 0
    ensures Count(s.requests[i := r], Metered) == Count(s.requests, Metered)
            - (if Metered(s.requests[i]) then 1 else 0) + if Metered(r) then 1 else 0
  {
    CountUpdate(s.requests, i, r, HoldsSlot);
    CountUpdate(s.requests, i, r, Dispatched);
    CountUpdate(s.requests, i, r, Metered);
  }

  lemma ArriveKeepsInv(c: Config, s: State, allowed: bool)
    requires ValidConfig(c) && Inv(c, s)
    ensures Inv(c, Apply(c, s, Arrive(allowed)))
  {
    CountAppend(s.requests, Arrived(allowed), HoldsSlot);
    CountAppend(s.requests, Arrived(allowed), Dispatched);
    CountAppend(s.requests, Arrived(allowed), Metered);
  }

  lemma MoveKeepsSlots(c: Config, s: State, step: Step)
    requires SlotsFit(c, s) && Enabled(s, step) && !step.Arrive? && !step.CallAllow?
    ensures SlotsFit(c, Apply(c, s, step))
  {
    CountUpdate(s.requests, step.i, Apply(c, s, step).requests[step.i], HoldsSlot);
  }

  /** A step that does not reach the bucket changes neither who was dispatched nor whom the bucket was asked about. */
  lemma MoveKeepsCounts(c: Config, s: State, step: Step)
    requires AnswersFit(s) && Enabled(s, step) && !step.Arrive? && !step.CallAllow?
    ensures var t := Apply(c, s, step);
            && t.level == s.level && t.calls == s.calls && AnswersFit(t)
            && Count(t.requests, Dispatched) == Count(s.requests, Dispatched)
            && Count(t.requests, Metered) == Count(s.requests, Metered)
  {
    var r := Apply(c, s, step).requests[step.i];
    CountUpdate(s.requests, step.i, r, Dispatched);
    CountUpdate(s.requests, step.i, r, Metered);
  }

  lemma AllowKeepsInv(c: Config, s: State, i: nat)
    requires ValidConfig(c) && Inv(c, s) && Enabled(s, CallAllow(i))
    ensures Inv(c, Apply(c, s, CallAllow(i)))
  {
    var r := Apply(c, s, CallAllow(i)).requests[i];
    CountsMove(s, i, r);
    if c.limits.Some? {
      AllowExtends(c.limits.value, c.start, s.calls, s.requests[i].now);
    }
  }

  lemma StepKeepsInv(c: Config, s: State, step: Step)
    requires ValidConfig(c) && Inv(c, s) && Enabled(s, step)
    ensures Inv(c, Apply(c, s, step))
  {
    if step.Arrive? {
      ArriveKeepsInv(c, s, step.allowed);
    } else if step.CallAllow? {
      AllowKeepsInv(c, s, step.i);
    } else {
      MoveKeepsSlots(c, s, step);
      MoveKeepsCounts(c, s, step);
    }
  }

  lemma AllowExtends(l: Limits, start: real, calls: seq<real>, now: real)
    ensures var (level, ok) := Take(l, After(l, start, calls), now);
            && After(l, start, calls + [now]) == level
            && Admitted(Decisions(l, start, calls + [now]))
                 == Admitted(Decisions(l, start, calls)) + if ok then 1 else 0
  {
    var ok := Take(l, After(l, start, calls), now).1;
    assert (calls + [now])[..|calls|] == calls;
    CountAppend(Decisions(l, start, calls), ok, IsAdmitted);
  }

  lemma {:induction false} RunKeepsInv(c: Config, s: State, steps: seq<Step>, t: State)
    requires ValidConfig(c) && Inv(c, s) && Run(c, s, steps, t)
    ensures Inv(c, t)
    decreases |steps|
  {
    if steps != [] {
      StepKeepsInv(c, s, steps[0]);
      RunKeepsInv(c, Apply(c, s, steps[0]), steps[1..], t);
    }
  }

  /** In every interleaving: occupied slots are the requests between acquire and release, Docker calls in progress
      never exceed maxConcurrent, and no release ever blocks. */
  lemma SlotsAreConserved(c: Config, steps: seq<Step>, s: State)
    requires ValidConfig(c) && Run(c, Init(c), steps, s)
    ensures s.slots == Count(s.requests, HoldsSlot)
    ensures Count(s.requests, InUpstream) <= s.slots <= c.maxConcurrent
    ensures forall i :: 0 <= i < |s.requests| && s.requests[i].Answered? ==> Enabled(s, Release(i))
  {
    RunKeepsInv(c, Init(c), steps, s);
    CountWeaken(s.requests, InUpstream, HoldsSlot);
    forall i | 0 <= i < |s.requests| && s.requests[i].Answered?
      ensures s.slots > 0
    {
      CountPositive(s.requests, i, HoldsSlot);
    }
  }

  /** With a limiter the tokens spent are exactly the requests dispatched to Docker, and the bucket was asked exactly
      about these and the ones answered 429: so no 403, 503 or 429 spends a token, and a 403 or 503 does not even
      reach the bucket. The dispatched requests are bounded by the capacity and the time since the first call. */
  lemma TokensAreDispatches(c: Config, steps: seq<Step>, s: State)
    requires ValidConfig(c) && c.limits.Some? && Run(c, Init(c), steps, s)
    ensures Admitted(Decisions(c.limits.value, c.start, s.calls)) == Count(s.requests, Dispatched)
    ensures |s.calls| == Count(s.requests, Metered)
    ensures s.calls != [] ==>
              Count(s.requests, Dispatched) as real <= Allowance(c.limits.value, c.start, s.calls, 0, |s.calls|)
    ensures s.calls == [] ==> Count(s.requests, Dispatched) == 0
  {
    RunKeepsInv(c, Init(c), steps, s);
    if s.calls != [] {
      var d := Decisions(c.limits.value, c.start, s.calls);
      AdmissionsInWindow(c.limits.value, c.start, s.calls, 0, |s.calls|);
      assert d[0..|s.calls|] == d;
    }
  }

  /** In every interleaving each decision is the one the window rule prescribes for the calls made so far. */
  lemma DecisionsFollowTheWindows(c: Config, steps: seq<Step>, s: State, i: nat)
    requires ValidConfig(c) && c.limits.Some? && Run(c, Init(c), steps, s) && Enabled(s, CallAllow(i))
    ensures var l, now := c.limits.value, s.requests[i].now;
            Apply(c, s, CallAllow(i)).requests[i].Upstream? <==>
            Fits(l, c.start, s.calls + [now], Decisions(l, c.start, s.calls + [now]), |s.calls|)
  {
    RunKeepsInv(c, Init(c), steps, s);
    var l, now := c.limits.value, s.requests[i].now;
    assert (s.calls + [now])[..|s.calls|] == s.calls;
    AdmittedIffNoWindowIsOverrun(l, c.start, s.calls + [now], |s.calls|);
  }

  // --------------------------------------------------- one request from end to end

  lemma {:induction false} RunAppend(c: Config, s: State, steps: seq<Step>, t: State, step: Step)
    requires Run(c, s, steps, t) && Enabled(t, step)
    ensures Run(c, s, steps + [step], Apply(c, t, step))
    decreases |steps|
  {
    if steps == [] {
      assert [step][1..] == [];
    } else {
      assert (steps + [step])[1..] == steps[1..] + [step];
      RunAppend(c, Apply(c, s, steps[0]), steps[1..], t, step);
    }
  }

  lemma Extend(c: Config, s: State, steps: seq<Step>, t: State, step: Step) returns (steps': seq<Step>, t': State)
    requires Run(c, s, steps, t) && Enabled(t, step)
    ensures Run(c, s, steps', t') && steps' == steps + [step] && t' == Apply(c, t, step)
  {
    RunAppend(c, s, steps, t, step);
    steps', t' := steps + [step], Apply(c, t, step);
  }

  /** Bring one more request up to the point where it has read the clock. */
  lemma Approach(c: Config, s: State, steps: seq<Step>, t: State, now: real) returns (steps': seq<Step>, t': State)
    requires Run(c, s, steps, t) && t.slots < c.maxConcurrent
    ensures Run(c, s, steps', t')
    ensures t' == State(t.slots + 1, t.level, t.calls, t.requests + [Timed(now)])
  {
    var i := |t.requests|;
    steps', t' := Extend(c, s, steps, t, Arrive(true));
    steps', t' := Extend(c, s, steps', t', Classify(i));
    steps', t' := Extend(c, s, steps', t', Acquire(i));
    steps', t' := Extend(c, s, steps', t', ReadClock(i, now));
  }

  /** The answer to a request that meets `slots` occupied slots and the bucket at `level`, and the level it leaves. */
  function Serve(c: Config, slots: nat, level: Level, allowed: bool, now: real): (Answer, Level) {
    if !allowed then (Forbidden, level)
    else if slots >= c.maxConcurrent then (Busy, level)
    else if c.limits.None? then (Relayed, level)
    else
      var (level', ok) := Take(c.limits.value, level, now);
      (if ok then Relayed else RateLimited, level')
  }

  /** From any state, a request that runs with nothing interleaved gets the answer of `Serve`, gives back its slot,
      and leaves the bucket as `Serve` says; 403 and 503 leave it untouched. */
  lemma SoloRequest(c: Config, s: State, allowed: bool, now: real) returns (steps: seq<Step>, t: State)
    ensures Run(c, s, steps, t)
    ensures var (answer, level) := Serve(c, s.slots, s.level, allowed, now);
            && t.slots == s.slots && t.level == level && t.requests == s.requests + [Finished(answer)]
            && (answer in {Forbidden, Busy} ==> t.level == s.level && t.calls == s.calls)
            && (answer == Forbidden <==> !allowed)
            && (answer == Busy <==> allowed && s.slots >= c.maxConcurrent)
            && (answer == RateLimited <==>
                  && allowed && s.slots < c.maxConcurrent && c.limits.Some?
                  && Refill(c.limits.value, s.level, now).tokens < 1.0)
  {
    var i := |s.requests|;
    steps, t := [], s;
    if allowed && s.slots < c.maxConcurrent {
      steps, t := Approach(c, s, steps, t, now);
      steps, t := Extend(c, s, steps, t, CallAllow(i));
      if t.requests[i].Upstream? {
        steps, t := Extend(c, s, steps, t, FinishUpstream(i));
      }
      steps, t := Extend(c, s, steps, t, Release(i));
    } else {
      steps, t := Extend(c, s, steps, t, Arrive(allowed));
      steps, t := Extend(c, s, steps, t, Classify(i));
      if allowed {
        steps, t := Extend(c, s, steps, t, Acquire(i));
      }
    }
  }

  class Handler {
    const maxConcurrent: nat
    /** The length of the inFlight channel. */
    var inFlight: nat
    /** Null where there is no rate limit. */
    const limiter: Bucket?

    ghost predicate Valid()
      reads this
    {
      inFlight <= maxConcurrent && maxConcurrent >= 1
    }

    ghost function Configuration(start: real): Config {
      Config(maxConcurrent, if limiter == null then None else Some(limiter.Bounds()), start)
    }

    ghost function BucketLevel(): Level
      reads limiter
    {
      if limiter == null then Level(0.0, 0.0) else limiter.Value()
    }

    /** The burst covers four seconds of requests and never fewer requests than there are slots. */
    constructor (maxConcurrent: nat, maxRate: nat, now: real)
      requires maxConcurrent >= 1
      ensures Valid() && inFlight == 0 && this.maxConcurrent == maxConcurrent
      ensures Configuration(now) == HandlerConfig(maxConcurrent, maxRate, now)
      ensures limiter != null ==> fresh(limiter) && limiter.Value() == Full(limiter.Bounds(), now)
    {
      var burst := Max(maxRate as real * BURST_SECONDS, maxConcurrent as real);
      this.maxConcurrent := maxConcurrent;
      this.inFlight := 0;
      var b := NewBucket(maxRate as real, burst, now);
      this.limiter := b;
    }

    method Acquire() returns (ok: bool)
      requires Valid()
      modifies `inFlight
      ensures Valid() && ok == (old(inFlight) < maxConcurrent)
      ensures inFlight == old(inFlight) + if ok then 1 else 0
    {
      ok := inFlight < maxConcurrent;
      if ok {
        inFlight := inFlight + 1;
      }
    }

    method Release()
      requires Valid() && inFlight > 0
      modifies `inFlight
      ensures Valid() && inFlight == old(inFlight) - 1
    {
      inFlight := inFlight - 1;
    }

    /** An uninterrupted request. `upstream` says whether Docker was asked. */
    method ServeHTTP(allowed: bool, now: real) returns (answer: Answer, upstream: bool)
      requires Valid()
      modifies `inFlight, limiter
      ensures Valid() && inFlight == old(inFlight)
      ensures (answer, BucketLevel()) == Serve(Configuration(now), old(inFlight), old(BucketLevel()), allowed, now)
      ensures upstream <==> answer == Relayed
      ensures answer == Forbidden <==> !allowed
      ensures answer == Busy <==> allowed && old(inFlight) == maxConcurrent
      ensures answer == RateLimited <==>
                && allowed && old(inFlight) < maxConcurrent && limiter != null
                && Refill(limiter.Bounds(), old(BucketLevel()), now).tokens < 1.0
    {
      if !allowed {
        return Forbidden, false;
      }
      var ok := Acquire();
      if !ok {
        return Busy, false;
      }
      if limiter != null {
        ok := limiter.Allow(now);
      }
      if ok {
        answer, upstream := Relayed, true;
      } else {
        answer, upstream := RateLimited, false;
      }
      Release();
    }
  }
}
