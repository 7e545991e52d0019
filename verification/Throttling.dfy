/** What a refused request costs the others in the admission of internal/gangway/handler.go: one answered 403 or 503
    nothing at all, one answered 429 nothing but the slot it holds until its deferred release. */
module Throttling {
  import opened Counting
  import opened TokenLaw
  import opened Admission

  // --------------------------------------- 403 and 503 leave no trace at all

  predicate WasRefused(r: Request) {
    r == Finished(Forbidden) || r == Finished(Busy)
  }

  /** The request has not had a slot. */
  predicate NeverHeld(r: Request) {
    r.Arrived? || r.Classified? || WasRefused(r)
  }

  /** A step of one of the requests in `refused`, other than its arrival. */
  predicate IsOf(step: Step, refused: set<nat>) {
    !step.Arrive? && step.i in refused
  }

  function Without(steps: seq<Step>, refused: set<nat>): seq<Step> {
    if steps == [] then []
    else (if IsOf(steps[0], refused) then [] else [steps[0]]) + Without(steps[1..], refused)
  }

  /** `s'` is `s`, but the requests in `refused` have only arrived. */
  ghost predicate IsSameBut(s: State, s': State, refused: set<nat>) {
    && s'.slots == s.slots && s'.level == s.level && s'.calls == s.calls && |s'.requests| == |s.requests|
    && forall i :: 0 <= i < |s.requests| ==>
         if i in refused then s'.requests[i].Arrived? else s'.requests[i] == s.requests[i]
  }

  lemma {:induction false} NeverHeldBefore(c: Config, s: State, steps: seq<Step>, t: State, i: nat)
    requires Run(c, s, steps, t) && AnswersFit(s) && i < |s.requests|
    ensures |s.requests| <= |t.requests|
    ensures NeverHeld(t.requests[i]) ==> NeverHeld(s.requests[i])
    decreases |steps|
  {
    if steps != [] {
      NeverHeldBefore(c, Apply(c, s, steps[0]), steps[1..], t, i);
    }
  }

  lemma ErasedStep(c: Config, s: State, step: Step, s': State, refused: set<nat>)
    requires Enabled(s, step) && AnswersFit(s) && IsSameBut(s, s', refused) && IsOf(step, refused)
    requires NeverHeld(s.requests[step.i]) && NeverHeld(Apply(c, s, step).requests[step.i])
    ensures IsSameBut(Apply(c, s, step), s', refused)
  {
  }

  lemma KeptStep(c: Config, s: State, step: Step, s': State, refused: set<nat>)
    requires Enabled(s, step) && IsSameBut(s, s', refused) && !IsOf(step, refused)
    ensures Enabled(s', step) && IsSameBut(Apply(c, s, step), Apply(c, s', step), refused)
  {
  }

  /** Take from any run the requests that end as 403 or 503, so that they arrive and then do nothing: every other
      request goes through the same steps, with the same slots, the same bucket and the same answers. */
  lemma {:induction false} RefusedRequestsAreUnobservable(c: Config, s: State, steps: seq<Step>, t: State, s': State,
                                                          refused: set<nat>) returns (t': State)
    requires Run(c, s, steps, t) && AnswersFit(s) && IsSameBut(s, s', refused)
    requires forall i :: i in refused ==> i < |t.requests| && WasRefused(t.requests[i])
    ensures Run(c, s', Without(steps, refused), t') && IsSameBut(t, t', refused)
    decreases |steps|
  {
    if steps == [] {
      t' := s';
    } else {
      var step, rest := steps[0], steps[1..];
      var s1 := Apply(c, s, step);
      if IsOf(step, refused) {
        NeverHeldBefore(c, s, steps, t, step.i);
        NeverHeldBefore(c, s1, rest, t, step.i);
        ErasedStep(c, s, step, s', refused);
        t' := RefusedRequestsAreUnobservable(c, s1, rest, t, s', refused);
        assert Without(steps, refused) == Without(rest, refused);
      } else {
        KeptStep(c, s, step, s', refused);
        t' := RefusedRequestsAreUnobservable(c, s1, rest, t, Apply(c, s', step), refused);
        assert Without(steps, refused) == [step] + Without(rest, refused);
        assert Without(steps, refused)[1..] == Without(rest, refused);
      }
    }
  }

  // ------------------------------------------ 429 leaves none but its slot

  /** The holders of slots other than requests that have been answered 429. */
  predicate HoldsForDocker(r: Request) {
    HoldsSlot(r) && r != Answered(RateLimited)
  }

  /** Request `i` is about to be answered 503, although requests on their way to or from Docker leave a slot free. */
  ghost predicate IsBusyDespiteRoom(c: Config, s: State, i: nat) {
    Enabled(s, Acquire(i)) && Apply(c, s, Acquire(i)).requests[i] == Finished(Busy) &&
    Count(s.requests, HoldsForDocker) < c.maxConcurrent
  }

  /** In every reachable state, that is so exactly if all slots are taken and a request answered 429 holds one. */
  lemma BusyDespiteRoomIff(c: Config, steps: seq<Step>, s: State, i: nat)
    requires ValidConfig(c) && Run(c, Init(c), steps, s) && Enabled(s, Acquire(i))
    ensures IsBusyDespiteRoom(c, s, i) <==>
            s.slots == c.maxConcurrent && exists j :: 0 <= j < |s.requests| && s.requests[j] == Answered(RateLimited)
  {
    RunKeepsInv(c, Init(c), steps, s);
    CountWeaken(s.requests, HoldsForDocker, HoldsSlot);
    if j :| 0 <= j < |s.requests| && s.requests[j] == Answered(RateLimited) {
      CountUpdate(s.requests, j, Classified, HoldsForDocker);
      CountUpdate(s.requests, j, Classified, HoldsSlot);
      CountWeaken(s.requests[j := Classified], HoldsForDocker, HoldsSlot);
    } else {
      CountSame(s.requests, HoldsForDocker, HoldsSlot);
    }
  }

  ghost predicate NoneThrottled(s: State) {
    forall i :: 0 <= i < |s.requests| ==> s.requests[i] != Answered(RateLimited)
  }

  lemma {:induction false} NoLimitNoThrottling(c: Config, s: State, steps: seq<Step>, t: State)
    requires c.limits.None? && NoneThrottled(s) && Run(c, s, steps, t)
    ensures NoneThrottled(t)
    decreases |steps|
  {
    if steps != [] {
      NoLimitNoThrottling(c, Apply(c, s, steps[0]), steps[1..], t);
    }
  }

  /** Dispatch and finish requests at one instant until the bucket has no token. */
  lemma Drain(c: Config) returns (steps: seq<Step>, t: State)
    requires ValidConfig(c) && c.limits.Some?
    ensures Run(c, Init(c), steps, t) && t.slots == 0 && t.level.tokens < 1.0 && t.level.last == c.start
    ensures forall r :: r in t.requests ==> r == Finished(Relayed)
  {
    steps, t := [], Init(c);
    while t.level.tokens >= 1.0
      invariant Run(c, Init(c), steps, t) && t.slots == 0 && t.level.last == c.start
      invariant forall r :: r in t.requests ==> r == Finished(Relayed)
      decreases t.level.tokens.Floor
    {
      var i, done := |t.requests|, t.requests;
      steps, t := Approach(c, Init(c), steps, t, c.start);
      steps, t := Extend(c, Init(c), steps, t, CallAllow(i));
      steps, t := Extend(c, Init(c), steps, t, FinishUpstream(i));
      steps, t := Extend(c, Init(c), steps, t, Release(i));
      assert t.requests == done + [Finished(Relayed)];
    }
  }

  /** Throttle requests until they hold all slots. */
  lemma Fill(c: Config, steps: seq<Step>, t: State) returns (steps': seq<Step>, t': State)
    requires ValidConfig(c) && c.limits.Some? && Run(c, Init(c), steps, t) && t.slots == 0
    requires t.level.tokens < 1.0 && t.level.last == c.start && forall r :: r in t.requests ==> !HoldsForDocker(r)
    ensures Run(c, Init(c), steps', t') && t'.slots == c.maxConcurrent
    ensures forall r :: r in t'.requests ==> !HoldsForDocker(r)
  {
    steps', t' := steps, t;
    while t'.slots < c.maxConcurrent
      invariant Run(c, Init(c), steps', t') && t'.slots <= c.maxConcurrent
      invariant t'.level.tokens < 1.0 && t'.level.last == c.start
      invariant forall r :: r in t'.requests ==> !HoldsForDocker(r)
      decreases c.maxConcurrent - t'.slots
    {
      var i, before := |t'.requests|, t'.requests;
      steps', t' := Approach(c, Init(c), steps', t', c.start);
      steps', t' := Extend(c, Init(c), steps', t', CallAllow(i));
      assert t'.requests == before + [Answered(RateLimited)];
    }
  }

  ghost predicate LeadsToBusyDespiteRoom(c: Config, steps: seq<Step>, s: State, i: nat) {
    Run(c, Init(c), steps, s) && IsBusyDespiteRoom(c, s, i)
  }

  lemma ThrottledCanCauseBusy(c: Config) returns (steps: seq<Step>, s: State, i: nat)
    requires ValidConfig(c) && c.limits.Some?
    ensures LeadsToBusyDespiteRoom(c, steps, s, i)
  {
    steps, s := Drain(c);
    steps, s := Fill(c, steps, s);
    i := |s.requests|;
    var full := s.requests;
    steps, s := Extend(c, Init(c), steps, s, Arrive(true));
    steps, s := Extend(c, Init(c), steps, s, Classify(i));
    assert s.requests == full + [Classified];
    CountNone(s.requests, HoldsForDocker);
  }

  /** A handler built with any number of slots and any rate can be brought to answer 503 because of requests that it
      has answered 429, exactly if it has a rate limit. */
  lemma ThrottledCanCauseBusyIff(maxConcurrent: nat, maxRate: nat, start: real)
    requires maxConcurrent >= 1
    ensures var c := HandlerConfig(maxConcurrent, maxRate, start);
            (exists steps, s, i :: LeadsToBusyDespiteRoom(c, steps, s, i)) <==> maxRate > 0
  {
    var c := HandlerConfig(maxConcurrent, maxRate, start);
    if maxRate > 0 {
      var steps, s, i := ThrottledCanCauseBusy(c);
    } else {
      forall steps, s, i | LeadsToBusyDespiteRoom(c, steps, s, i)
        ensures false
      {
        NoLimitNoThrottling(c, Init(c), steps, s);
        BusyDespiteRoomIff(c, steps, s, i);
      }
    }
  }

  // --------------------------------------------- taking 429 out of a run

  /** `s'` is `s`, but the requests in `erased` have only arrived, and the bucket is where it would be without them. */
  ghost predicate Mirrors(c: Config, s: State, s': State, erased: set<nat>) {
    SameOutside(s, s', erased) && (c.limits.Some? ==> Lags(c.limits.value, s.level, s'.level))
  }

  ghost predicate SameOutside(s: State, s': State, erased: set<nat>) {
    && |s'.requests| == |s.requests|
    && forall i :: 0 <= i < |s.requests| ==>
         if i in erased then s'.requests[i].Arrived? else s'.requests[i] == s.requests[i]
  }

  ghost predicate NoneHolds(s: State, erased: set<nat>) {
    forall j :: 0 <= j < |s.requests| && j in erased ==> !HoldsSlot(s.requests[j])
  }

  /** If the step is another request's and is answered 503, none of the erased ones holds a slot. */
  ghost predicate IsClear(c: Config, s: State, step: Step, erased: set<nat>) {
    step.Acquire? && step.i !in erased && s.slots >= c.maxConcurrent ==> NoneHolds(s, erased)
  }

  ghost predicate NeverInTheWay(c: Config, s: State, steps: seq<Step>, erased: set<nat>)
    decreases |steps|
  {
    steps == [] ||
    (Enabled(s, steps[0]) && IsClear(c, s, steps[0], erased) &&
     NeverInTheWay(c, Apply(c, s, steps[0]), steps[1..], erased))
  }

  /** The erased run takes place, and leads every other request to where it was. */
  ghost predicate LeadsOthersTo(c: Config, s': State, steps: seq<Step>, t: State, erased: set<nat>) {
    exists t' :: Run(c, s', steps, t') && SameOutside(t, t', erased)
  }

  lemma FewerSlots(c: Config, s: State, s': State, erased: set<nat>)
    requires Inv(c, s) && Inv(c, s') && Mirrors(c, s, s', erased)
    ensures s'.slots <= s.slots
    ensures s'.slots == s.slots <==> NoneHolds(s, erased)
  {
    CountPointwise(s'.requests, s.requests, HoldsSlot);
  }

  lemma {:induction false} DispatchedStays(c: Config, s: State, steps: seq<Step>, t: State, i: nat)
    requires Run(c, s, steps, t) && i < |s.requests|
    ensures |s.requests| <= |t.requests|
    ensures Dispatched(s.requests[i]) ==> Dispatched(t.requests[i])
    decreases |steps|
  {
    if steps != [] {
      DispatchedStays(c, Apply(c, s, steps[0]), steps[1..], t, i);
    }
  }

  lemma ErasedMirrors(c: Config, s: State, step: Step, s': State, erased: set<nat>)
    requires ValidConfig(c) && Enabled(s, step) && Mirrors(c, s, s', erased) && IsOf(step, erased)
    requires !Dispatched(Apply(c, s, step).requests[step.i])
    ensures Mirrors(c, Apply(c, s, step), s', erased)
  {
    if step.CallAllow? && c.limits.Some? {
      LagsAcrossRefused(c.limits.value, s.level, s'.level, s.requests[step.i].now);
    }
  }

  lemma AllowMirrors(c: Config, s: State, i: nat, s': State, erased: set<nat>)
    requires ValidConfig(c) && Enabled(s, CallAllow(i)) && Mirrors(c, s, s', erased) && i !in erased
    ensures Enabled(s', CallAllow(i)) && Mirrors(c, Apply(c, s, CallAllow(i)), Apply(c, s', CallAllow(i)), erased)
  {
    if c.limits.Some? {
      LagsAcrossKept(c.limits.value, s.level, s'.level, s.requests[i].now);
    }
  }

  lemma KeptMirrors(c: Config, s: State, step: Step, s': State, erased: set<nat>)
    requires ValidConfig(c) && Inv(c, s) && Inv(c, s') && Enabled(s, step) && Mirrors(c, s, s', erased)
    requires !IsOf(step, erased) && IsClear(c, s, step, erased)
    ensures Enabled(s', step) && Mirrors(c, Apply(c, s, step), Apply(c, s', step), erased)
  {
    if step.CallAllow? {
      AllowMirrors(c, s, step.i, s', erased);
    } else if step.Acquire? {
      FewerSlots(c, s, s', erased);
    } else if step.Release? {
      CountPositive(s'.requests, step.i, HoldsSlot);
    }
  }

  /** No step is about request `i`. */
  ghost predicate Rests(steps: seq<Step>, i: nat) {
    forall step :: step in steps ==> step.Arrive? || step.i != i
  }

  lemma {:induction false} RestingStays(c: Config, s: State, steps: seq<Step>, t: State, i: nat)
    requires Run(c, s, steps, t) && i < |s.requests| && Rests(steps, i)
    ensures i < |t.requests| && t.requests[i] == s.requests[i]
    decreases |steps|
  {
    if steps != [] {
      assert steps[0] in steps && Rests(steps[1..], i);
      RestingStays(c, Apply(c, s, steps[0]), steps[1..], t, i);
    }
  }

  lemma {:induction false} FinishedRests(c: Config, s: State, steps: seq<Step>, t: State, i: nat)
    requires Run(c, s, steps, t) && i < |s.requests| && s.requests[i].Finished?
    ensures Rests(steps, i)
    decreases |steps|
  {
    if steps != [] {
      FinishedRests(c, Apply(c, s, steps[0]), steps[1..], t, i);
      assert forall step :: step in steps ==> step == steps[0] || step in steps[1..];
    }
  }

  lemma {:induction false} WithoutRests(steps: seq<Step>, erased: set<nat>, i: nat)
    requires Rests(steps, i)
    ensures Rests(Without(steps, erased), i)
  {
    if steps != [] {
      assert steps[0] in steps && Rests(steps[1..], i);
      WithoutRests(steps[1..], erased, i);
    }
  }

  /** An erased request was in the way: without it, the request answered 503 gets the slot, and so ends otherwise. */
  lemma InTheWayShows(c: Config, s: State, step: Step, rest: seq<Step>, t: State, s': State, erased: set<nat>)
    requires ValidConfig(c) && Inv(c, s) && Inv(c, s') && Mirrors(c, s, s', erased)
    requires Enabled(s, step) && Run(c, Apply(c, s, step), rest, t) && !IsClear(c, s, step, erased)
    ensures Enabled(s', step) && !LeadsOthersTo(c, Apply(c, s', step), Without(rest, erased), t, erased)
  {
    var i := step.i;
    FewerSlots(c, s, s', erased);
    FinishedRests(c, Apply(c, s, step), rest, t, i);
    RestingStays(c, Apply(c, s, step), rest, t, i);
    WithoutRests(rest, erased, i);
    forall t' | Run(c, Apply(c, s', step), Without(rest, erased), t')
      ensures !SameOutside(t, t', erased)
    {
      RestingStays(c, Apply(c, s', step), Without(rest, erased), t', i);
    }
  }

  lemma LeadsCons(c: Config, s': State, step: Step, rest: seq<Step>, t: State, erased: set<nat>)
    requires Enabled(s', step)
    ensures LeadsOthersTo(c, s', [step] + rest, t, erased) <==> LeadsOthersTo(c, Apply(c, s', step), rest, t, erased)
  {
    assert ([step] + rest)[1..] == rest;
    forall t'
      ensures Run(c, s', [step] + rest, t') <==> Run(c, Apply(c, s', step), rest, t')
    {
    }
  }

  lemma {:induction false} ErasureIff(c: Config, s: State, steps: seq<Step>, t: State, s': State, erased: set<nat>)
    requires ValidConfig(c) && Inv(c, s) && Inv(c, s') && Run(c, s, steps, t) && Mirrors(c, s, s', erased)
    requires forall i :: i in erased ==> i < |t.requests| && !Dispatched(t.requests[i])
    ensures LeadsOthersTo(c, s', Without(steps, erased), t, erased) <==> NeverInTheWay(c, s, steps, erased)
    decreases |steps|
  {
    if steps == [] {
      assert Run(c, s', [], s') && SameOutside(t, s', erased);
    } else {
      var step, rest := steps[0], steps[1..];
      var s1 := Apply(c, s, step);
      StepKeepsInv(c, s, step);
      if IsOf(step, erased) {
        DispatchedStays(c, s1, rest, t, step.i);
        ErasedMirrors(c, s, step, s', erased);
        ErasureIff(c, s1, rest, t, s', erased);
        assert Without(steps, erased) == Without(rest, erased);
      } else {
        assert Without(steps, erased) == [step] + Without(rest, erased);
        if IsClear(c, s, step, erased) {
          KeptMirrors(c, s, step, s', erased);
          StepKeepsInv(c, s', step);
          ErasureIff(c, s1, rest, t, Apply(c, s', step), erased);
        } else {
          InTheWayShows(c, s, step, rest, t, s', erased);
        }
        LeadsCons(c, s', step, Without(rest, erased), t, erased);
      }
    }
  }

  /** Take from any run any requests that were not dispatched to Docker, those answered 429 included, so that they
      arrive and then do nothing: every other request goes through the same steps to the same answer if and only if
      none of them held a slot when another request was answered 503. */
  lemma UndispatchedAreUnobservableIff(c: Config, steps: seq<Step>, t: State, erased: set<nat>)
    requires ValidConfig(c) && Run(c, Init(c), steps, t)
    requires forall i :: i in erased ==> i < |t.requests| && !Dispatched(t.requests[i])
    ensures LeadsOthersTo(c, Init(c), Without(steps, erased), t, erased) <==> NeverInTheWay(c, Init(c), steps, erased)
  {
    ErasureIff(c, Init(c), steps, t, Init(c), erased);
  }
}
