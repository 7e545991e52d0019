/** What a clock that goes backward costs a token bucket, over whole runs: in the worst run as many admissions as there
    are tokens in the time it went back by, rounded up. */
module BackwardClock {
  import opened Counting
  import opened TokenBucket
  import opened TokenLaw

  /** `seen` is what a clock reads that goes back by `back` after the first `cut` of the instants in `truth`. */
  ghost predicate GoesBack(truth: seq<real>, seen: seq<real>, cut: nat, back: real) {
    && |seen| == |truth|
    && (forall i :: 0 < i < |truth| ==> truth[i - 1] <= truth[i])
    && (forall i :: 0 <= i < |truth| ==> seen[i] == if i < cut then truth[i] else truth[i] - back)
  }

  ghost function Lost(l: Limits, start: real, truth: seq<real>, seen: seq<real>): int {
    Admitted(Decisions(l, start, truth)) - Admitted(Decisions(l, start, seen))
  }

  ghost predicate LosesAtLeast(l: Limits, start: real, back: real, n: nat,
                               truth: seq<real>, seen: seq<real>, cut: nat) {
    GoesBack(truth, seen, cut, back) && Lost(l, start, truth, seen) >= n
  }

  // ------------------------------------------------------------- no run loses more

  /** How the level on the true clock and the one on the clock that has gone back stand to each other, with `d` calls
      lost so far; `most` is the refill of `back`, rounded up. While the second clock catches up, what has been lost and
      what the first bucket has more lie in the refill between their instants; once it has caught up, they stay within
      the bound. */
  ghost predicate Coupled(l: Limits, t: Level, s: Level, d: int, back: real, most: int) {
    if t.last == s.last + back then d <= most && t.tokens - s.tokens <= (most - d) as real
    else
      && s.last <= t.last < s.last + back && d >= 0
      && d as real + t.tokens <= s.tokens + Refilled(l.rate, s.last, t.last)
      && (d > 0 ==> s.tokens < 1.0) && (d == 0 ==> t.tokens >= s.tokens)
  }

  ghost predicate InBounds(l: Limits, s: Level) {
    0.0 <= s.tokens <= l.capacity
  }

  ghost predicate IsRoundedUp(x: real, k: int) {
    x <= k as real < x + 1.0
  }

  /** How many more calls the true clock has admitted after one more call on each. */
  function LostNext(d: int, t: Level, s: Level): int {
    d + (if t.tokens < 1.0 then 0 else 1) - if s.tokens < 1.0 then 0 else 1
  }

  /** They stand so after a call, too, at `x` on the true clock. */
  ghost predicate CoupledAfter(l: Limits, t: Level, s: Level, d: int, back: real, most: int, x: real) {
    var d' := LostNext(d, Refill(l, t, x), Refill(l, s, x - back));
    Coupled(l, Take(l, t, x).0, Take(l, s, x - back).0, d', back, most)
  }

  /** Deciding a call keeps the bound once the clock has caught up. */
  lemma SpendCaughtUp(t: Level, s: Level, d: int, most: int)
    requires d <= most && t.tokens - s.tokens <= (most - d) as real
    ensures var d' := LostNext(d, t, s);
            d' <= most && Spend(t).0.tokens - Spend(s).0.tokens <= (most - d') as real
  {
  }

  /** And the relation before it has. `t` has been refilled, `s` has not. */
  lemma SpendCatchingUp(t: Level, s: Level, d: int, gap: real)
    requires d >= 0 && d as real + t.tokens <= s.tokens + gap
    requires (d > 0 ==> s.tokens < 1.0) && (d == 0 ==> t.tokens >= s.tokens)
    ensures var d', t', s' := LostNext(d, t, s), Spend(t).0, Spend(s).0;
            && d' >= 0 && d' as real + t'.tokens <= s'.tokens + gap
            && (d' > 0 ==> s'.tokens < 1.0) && (d' == 0 ==> t'.tokens >= s'.tokens)
  {
  }

  /** A call while the clock is still behind what the bucket has seen: only the true one refills. */
  lemma StepCatchingUp(l: Limits, t: Level, s: Level, d: int, back: real, most: int, x: real)
    requires ValidLimits(l) && InBounds(l, t) && InBounds(l, s) && Coupled(l, t, s, d, back, most)
    requires t.last < s.last + back && x < s.last + back
    ensures CoupledAfter(l, t, s, d, back, most, x)
  {
    var clock := Max(t.last, x);
    RefillTokens(l, t, x);
    RefilledAdds(l.rate, s.last, t.last, clock);
    RefilledSign(l.rate, t.last, clock);
    assert Refill(l, s, x - back) == s;
    SpendCatchingUp(Refill(l, t, x), s, d, Refilled(l.rate, s.last, clock));
  }

  /** What has been lost before the clock has caught up is within the bound. */
  lemma LostWithin(l: Limits, t: Level, s: Level, d: int, back: real, most: int)
    requires ValidLimits(l) && InBounds(l, t) && InBounds(l, s) && Coupled(l, t, s, d, back, most)
    requires back >= 0.0 && IsRoundedUp(Refilled(l.rate, 0.0, back), most)
    ensures d <= most
    ensures t.last <= s.last + back ==> Refilled(l.rate, s.last, t.last) <= Refilled(l.rate, 0.0, back)
  {
    RefilledSign(l.rate, t.last, s.last + back);
    RefilledAdds(l.rate, s.last, t.last, s.last + back);
    RefilledShifts(l.rate, s.last, back);
    RefilledSign(l.rate, 0.0, back);
  }

  lemma RefilledShifts(rate: real, from: real, t: real)
    ensures Refilled(rate, from, from + t) == Refilled(rate, 0.0, t)
  {
  }

  /** Filling up both buckets, where the true one has `more` to come. */
  lemma FillBoth(capacity: real, t: real, s: real, earnedT: real, earnedS: real, room: real)
    requires room >= 0.0 && t + earnedT - (s + earnedS) <= room
    ensures Min(capacity, t + earnedT) - Min(capacity, s + earnedS) <= room
  {
  }

  /** The call with which the clock catches up. */
  lemma StepArrives(l: Limits, t: Level, s: Level, d: int, back: real, most: int, x: real)
    requires ValidLimits(l) && InBounds(l, t) && InBounds(l, s) && Coupled(l, t, s, d, back, most)
    requires back >= 0.0 && IsRoundedUp(Refilled(l.rate, 0.0, back), most)
    requires t.last < s.last + back && x >= s.last + back
    ensures CoupledAfter(l, t, s, d, back, most, x)
  {
    LostWithin(l, t, s, d, back, most);
    RefillTokens(l, t, x);
    RefillTokens(l, s, x - back);
    var earnedT, earnedS := Refilled(l.rate, t.last, x), Refilled(l.rate, s.last, x - back);
    RefilledAdds(l.rate, s.last, t.last, x);
    RefilledAdds(l.rate, s.last, x - back, x);
    RefilledShifts(l.rate, x - back, back);
    FillBoth(l.capacity, t.tokens, s.tokens, earnedT, earnedS, (most - d) as real);
    SpendCaughtUp(Refill(l, t, x), Refill(l, s, x - back), d, most);
  }

  /** A call once it has: both refill alike. */
  lemma StepCaughtUp(l: Limits, t: Level, s: Level, d: int, back: real, most: int, x: real)
    requires ValidLimits(l) && InBounds(l, t) && InBounds(l, s) && Coupled(l, t, s, d, back, most)
    requires t.last == s.last + back
    ensures CoupledAfter(l, t, s, d, back, most, x)
  {
    var clock := Max(t.last, x);
    RefillTokens(l, t, x);
    RefillTokens(l, s, x - back);
    assert Max(s.last, x - back) == clock - back;
    var earned := Refilled(l.rate, t.last, clock);
    RefilledBackward(l.rate, t.last, clock, back);
    FillBoth(l.capacity, t.tokens, s.tokens, earned, earned, (most - d) as real);
    SpendCaughtUp(Refill(l, t, x), Refill(l, s, x - back), d, most);
  }

  lemma RefilledBackward(rate: real, from: real, to: real, back: real)
    ensures Refilled(rate, from - back, to - back) == Refilled(rate, from, to)
  {
  }

  lemma LostAppend(l: Limits, start: real, truth: seq<real>, seen: seq<real>, x: real, y: real)
    ensures var t, s := After(l, start, truth), After(l, start, seen);
            Lost(l, start, truth + [x], seen + [y])
            == LostNext(Lost(l, start, truth, seen), Refill(l, t, x), Refill(l, s, y))
  {
    RunAppendCall(l, start, truth, x);
    RunAppendCall(l, start, seen, y);
  }

  lemma CoupledStep(l: Limits, t: Level, s: Level, d: int, back: real, most: int, x: real)
    requires ValidLimits(l) && InBounds(l, t) && InBounds(l, s) && Coupled(l, t, s, d, back, most)
    requires back >= 0.0 && IsRoundedUp(Refilled(l.rate, 0.0, back), most)
    ensures CoupledAfter(l, t, s, d, back, most, x)
  {
    if t.last == s.last + back {
      StepCaughtUp(l, t, s, d, back, most, x);
    } else if x < s.last + back {
      StepCatchingUp(l, t, s, d, back, most, x);
    } else {
      StepArrives(l, t, s, d, back, most, x);
    }
  }

  ghost predicate RunsCoupled(l: Limits, start: real, truth: seq<real>, seen: seq<real>, back: real, most: int) {
    Coupled(l, After(l, start, truth), After(l, start, seen), Lost(l, start, truth, seen), back, most)
  }

  lemma RunsCoupledStep(l: Limits, start: real, truth: seq<real>, seen: seq<real>, back: real, most: int, x: real)
    requires ValidLimits(l) && back >= 0.0 && IsRoundedUp(Refilled(l.rate, 0.0, back), most)
    requires RunsCoupled(l, start, truth, seen, back, most)
    ensures RunsCoupled(l, start, truth + [x], seen + [x - back], back, most)
  {
    var t, s := After(l, start, truth), After(l, start, seen);
    LevelBounds(l, start, truth);
    LevelBounds(l, start, seen);
    CoupledStep(l, t, s, Lost(l, start, truth, seen), back, most, x);
    LostAppend(l, start, truth, seen, x, x - back);
    RunStep(l, start, truth, x);
    RunStep(l, start, seen, x - back);
  }

  /** Before the clock goes back, both runs are one. */
  lemma RunsCoupledAtFirst(l: Limits, start: real, calls: seq<real>, back: real, most: int)
    requires ValidLimits(l) && back >= 0.0 && IsRoundedUp(Refilled(l.rate, 0.0, back), most)
    ensures RunsCoupled(l, start, calls, calls, back, most)
  {
    var s := After(l, start, calls);
    RefilledSign(l.rate, 0.0, back);
    RefilledSign(l.rate, s.last, s.last);
  }

  lemma GoesBackFront(truth: seq<real>, seen: seq<real>, cut: nat, back: real)
    requires GoesBack(truth, seen, cut, back) && |truth| > cut
    ensures var n := |truth| - 1;
            && GoesBack(truth[..n], seen[..n], cut, back)
            && truth == truth[..n] + [truth[n]] && seen == seen[..n] + [truth[n] - back]
  {
  }

  lemma {:induction false} RunsAreCoupled(l: Limits, start: real, truth: seq<real>, seen: seq<real>, cut: nat,
                                          back: real, most: int)
    requires ValidLimits(l) && GoesBack(truth, seen, cut, back)
    requires back >= 0.0 && IsRoundedUp(Refilled(l.rate, 0.0, back), most)
    ensures RunsCoupled(l, start, truth, seen, back, most)
    decreases |truth|
  {
    if |truth| <= cut {
      assert truth == seen;
      RunsCoupledAtFirst(l, start, truth, back, most);
    } else {
      var n := |truth| - 1;
      GoesBackFront(truth, seen, cut, back);
      RunsAreCoupled(l, start, truth[..n], seen[..n], cut, back, most);
      RunsCoupledStep(l, start, truth[..n], seen[..n], back, most, truth[n]);
    }
  }

  lemma RoundUp(x: real) returns (k: int)
    ensures IsRoundedUp(x, k)
  {
    k := if x.Floor as real == x then x.Floor else x.Floor + 1;
  }

  /** No run loses more than the refill of `back`, rounded up. */
  lemma LossIsBounded(l: Limits, start: real, truth: seq<real>, seen: seq<real>, cut: nat, back: real)
    requires ValidLimits(l) && GoesBack(truth, seen, cut, back) && back >= 0.0
    ensures Lost(l, start, truth, seen) as real - 1.0 < Refilled(l.rate, 0.0, back)
  {
    var most := RoundUp(Refilled(l.rate, 0.0, back));
    RunsAreCoupled(l, start, truth, seen, cut, back, most);
    LevelBounds(l, start, truth);
    LevelBounds(l, start, seen);
    LostWithin(l, After(l, start, truth), After(l, start, seen), Lost(l, start, truth, seen), back, most);
  }

  // ------------------------------------------------------------ and some run loses as much

  /** A full bucket from which as many calls as it has tokens have been admitted. */
  lemma Drained(l: Limits, start: real) returns (burst: seq<real>)
    requires ValidLimits(l)
    ensures burst == Repeat(l.capacity.Floor, start)
    ensures After(l, start, burst) == Level(l.capacity - l.capacity.Floor as real, start)
  {
    burst := Repeat(l.capacity.Floor, start);
    RepeatAdmitted(l, start, [], l.capacity.Floor, start);
    assert [] + burst == burst;
  }

  /** When the true bucket, with `rest` of a token left by a burst at `start`, has just come to one token for the `i`th
      time. */
  ghost function Due(l: Limits, start: real, rest: real, i: nat): real
    requires l.rate > 0.0
  {
    start + (i as real - rest) / l.rate
  }

  lemma DivTimes(a: real, b: real)
    requires b > 0.0
    ensures (a / b) * b == a
  {
  }

  lemma DueTicks(l: Limits, start: real, rest: real, i: nat)
    requires l.rate > 0.0
    ensures Refilled(l.rate, start, Due(l, start, rest, i)) == i as real - rest
  {
    DivTimes(i as real - rest, l.rate);
  }

  /** One token's refill lies between two of them. */
  lemma DueSpacing(l: Limits, start: real, rest: real, i: nat)
    requires l.rate > 0.0
    ensures Refilled(l.rate, Due(l, start, rest, i), Due(l, start, rest, i + 1)) == 1.0
    ensures Due(l, start, rest, i) < Due(l, start, rest, i + 1)
  {
    var a, b := Due(l, start, rest, i), Due(l, start, rest, i + 1);
    DueTicks(l, start, rest, i);
    DueTicks(l, start, rest, i + 1);
    RefilledAdds(l.rate, start, a, b);
    RefilledSign(l.rate, a, b);
  }

  /** Such calls, as many as `n`, read on a clock that has gone back by `back`. */
  ghost function Calls(l: Limits, start: real, rest: real, back: real, n: nat): (calls: seq<real>)
    requires l.rate > 0.0
    ensures |calls| == n && forall i :: 0 <= i < n ==> calls[i] == Due(l, start, rest, i + 1) - back
  {
    if n == 0 then [] else Calls(l, start, rest, back, n - 1) + [Due(l, start, rest, n) - back]
  }

  lemma CallsLast(l: Limits, start: real, rest: real, back: real, n: nat, burst: seq<real>)
    requires l.rate > 0.0 && n > 0
    ensures burst + Calls(l, start, rest, back, n)
         == burst + Calls(l, start, rest, back, n - 1) + [Due(l, start, rest, n) - back]
  {
  }

  /** The level after a burst at `start`: less than a token. */
  ghost predicate IsDrained(l: Limits, start: real, burst: seq<real>, rest: real) {
    After(l, start, burst) == Level(rest, start) && 0.0 <= rest < 1.0
  }

  lemma TrueStep(l: Limits, start: real, rest: real, n: nat, s: Level)
    requires ValidLimits(l) && n > 0 && 0.0 <= rest < 1.0
    requires s == if n == 1 then Level(rest, start) else Level(0.0, Due(l, start, rest, n - 1))
    ensures Take(l, s, Due(l, start, rest, n)) == (Level(0.0, Due(l, start, rest, n)), true)
  {
    var now := Due(l, start, rest, n);
    DueTicks(l, start, rest, n);
    DueSpacing(l, start, rest, n - 1);
    RefilledSign(l.rate, start, now);
    RefillTokens(l, s, now);
  }

  /** The true clock admits them all. */
  lemma {:induction false} TrueAdmits(l: Limits, start: real, burst: seq<real>, rest: real, n: nat)
    requires ValidLimits(l) && IsDrained(l, start, burst, rest)
    ensures var calls := burst + Calls(l, start, rest, 0.0, n);
            && Admitted(Decisions(l, start, calls)) == Admitted(Decisions(l, start, burst)) + n
            && After(l, start, calls) == if n == 0 then Level(rest, start) else Level(0.0, Due(l, start, rest, n))
  {
    if n == 0 {
      assert burst + Calls(l, start, rest, 0.0, 0) == burst;
    } else {
      TrueAdmits(l, start, burst, rest, n - 1);
      CallsLast(l, start, rest, 0.0, n, burst);
      TrueStep(l, start, rest, n, After(l, start, burst + Calls(l, start, rest, 0.0, n - 1)));
      RunAppendCall(l, start, burst + Calls(l, start, rest, 0.0, n - 1), Due(l, start, rest, n));
    }
  }

  /** Where the bucket on the other clock then is, which is short of a token. */
  ghost function Behind(l: Limits, start: real, rest: real, back: real, n: nat): Level
    requires l.rate > 0.0
  {
    Level(Max(rest, n as real - Refilled(l.rate, 0.0, back)), Max(start, Due(l, start, rest, n) - back))
  }

  /** How the clock that has gone back stands to the start, in tokens. */
  lemma BehindTicks(l: Limits, start: real, rest: real, back: real, n: nat)
    requires l.rate > 0.0
    ensures var y := Due(l, start, rest, n) - back; var ticks := n as real - rest - Refilled(l.rate, 0.0, back);
            Refilled(l.rate, start, y) == ticks && (y > start <==> ticks > 0.0)
  {
    var now := Due(l, start, rest, n);
    DueTicks(l, start, rest, n);
    RefilledAdds(l.rate, start, now - back, now);
    RefilledShifts(l.rate, now - back, back);
    RefilledSign(l.rate, start, now - back);
  }

  lemma BehindStep(l: Limits, start: real, rest: real, back: real, n: nat)
    requires ValidLimits(l) && n > 0 && 0.0 <= rest < 1.0 && n as real - 1.0 < Refilled(l.rate, 0.0, back)
    ensures Take(l, Behind(l, start, rest, back, n - 1), Due(l, start, rest, n) - back)
         == (Behind(l, start, rest, back, n), false)
  {
    var s, y := Behind(l, start, rest, back, n - 1), Due(l, start, rest, n) - back;
    BehindTicks(l, start, rest, back, n - 1);
    BehindTicks(l, start, rest, back, n);
    DueSpacing(l, start, rest, n - 1);
    RefillTokens(l, s, y);
    if y > s.last {
      RefilledAdds(l.rate, start, s.last, y);
      RefilledSign(l.rate, start, start);
    } else {
      RefilledSign(l.rate, s.last, s.last);
    }
  }

  lemma BehindAtFirst(l: Limits, start: real, rest: real, back: real)
    requires l.rate > 0.0 && rest >= 0.0 && back >= 0.0
    ensures Behind(l, start, rest, back, 0) == Level(rest, start)
  {
    BehindTicks(l, start, rest, back, 0);
    RefilledSign(l.rate, 0.0, back);
  }

  ghost predicate IsBehind(l: Limits, start: real, burst: seq<real>, rest: real, back: real, n: nat)
    requires l.rate > 0.0
  {
    var calls := burst + Calls(l, start, rest, back, n);
    && Admitted(Decisions(l, start, calls)) == Admitted(Decisions(l, start, burst))
    && After(l, start, calls) == Behind(l, start, rest, back, n)
  }

  lemma SeenRefusesNext(l: Limits, start: real, burst: seq<real>, rest: real, back: real, n: nat)
    requires ValidLimits(l) && 0.0 <= rest < 1.0 && n > 0 && n as real - 1.0 < Refilled(l.rate, 0.0, back)
    requires IsBehind(l, start, burst, rest, back, n - 1)
    ensures IsBehind(l, start, burst, rest, back, n)
  {
    CallsLast(l, start, rest, back, n, burst);
    BehindStep(l, start, rest, back, n);
    RunAppendCall(l, start, burst + Calls(l, start, rest, back, n - 1), Due(l, start, rest, n) - back);
  }

  /** The other clock gets every one of them refused. */
  lemma {:induction false} SeenRefuses(l: Limits, start: real, burst: seq<real>, rest: real, back: real, n: nat)
    requires ValidLimits(l) && IsDrained(l, start, burst, rest) && back >= 0.0
    requires n as real - 1.0 < Refilled(l.rate, 0.0, back)
    ensures IsBehind(l, start, burst, rest, back, n)
  {
    if n == 0 {
      assert burst + Calls(l, start, rest, back, 0) == burst;
      BehindAtFirst(l, start, rest, back);
    } else {
      SeenRefuses(l, start, burst, rest, back, n - 1);
      SeenRefusesNext(l, start, burst, rest, back, n);
    }
  }

  lemma DueOrdered(l: Limits, start: real, rest: real, k: nat, n: nat)
    requires l.rate > 0.0 && 0.0 <= rest < 1.0
    ensures var truth := Repeat(k, start) + Calls(l, start, rest, 0.0, n);
            forall i :: 0 < i < |truth| ==> truth[i - 1] <= truth[i]
  {
    var truth := Repeat(k, start) + Calls(l, start, rest, 0.0, n);
    forall i | 0 < i < |truth|
      ensures truth[i - 1] <= truth[i]
    {
      if i == k {
        DueTicks(l, start, rest, 1);
        RefilledSign(l.rate, start, Due(l, start, rest, 1));
      } else if i > k {
        DueSpacing(l, start, rest, i - k);
      }
    }
  }

  /** A burst empties the bucket, the clock goes back, and then there is a call whenever the true bucket has a token. */
  lemma SomeRunLoses(l: Limits, start: real, back: real, n: nat) returns (truth: seq<real>, seen: seq<real>, cut: nat)
    requires ValidLimits(l) && back >= 0.0 && n as real - 1.0 < Refilled(l.rate, 0.0, back)
    ensures GoesBack(truth, seen, cut, back) && Lost(l, start, truth, seen) == n
  {
    cut := l.capacity.Floor;
    var rest := l.capacity - cut as real;
    var burst := Drained(l, start);
    truth, seen := burst + Calls(l, start, rest, 0.0, n), burst + Calls(l, start, rest, back, n);
    DueOrdered(l, start, rest, cut, n);
    TrueAdmits(l, start, burst, rest, n);
    SeenRefuses(l, start, burst, rest, back, n);
  }

  // --------------------------------------------------------------------- the law

  /** A clock that goes back by `back` can cost `n` admissions, in some run, exactly if its refill is more than `n` - 1
      tokens: whatever the capacity, the worst run loses that refill, rounded up. */
  lemma BackwardClockLossIff(l: Limits, start: real, back: real, n: nat)
    requires ValidLimits(l) && back >= 0.0 && n > 0
    ensures (exists truth, seen, cut :: LosesAtLeast(l, start, back, n, truth, seen, cut)) <==>
            n as real - 1.0 < Refilled(l.rate, 0.0, back)
  {
    if n as real - 1.0 < Refilled(l.rate, 0.0, back) {
      var truth, seen, cut := SomeRunLoses(l, start, back, n);
      assert LosesAtLeast(l, start, back, n, truth, seen, cut);
    }
    forall truth, seen, cut | LosesAtLeast(l, start, back, n, truth, seen, cut)
      ensures n as real - 1.0 < Refilled(l.rate, 0.0, back)
    {
      LossIsBounded(l, start, truth, seen, cut, back);
    }
  }

  /** So it never costs more than one admission exactly if it went back by at most the time of one token. */
  lemma CostsAtMostOneIff(l: Limits, start: real, back: real)
    requires ValidLimits(l) && back >= 0.0
    ensures (forall truth, seen, cut :: GoesBack(truth, seen, cut, back) ==> Lost(l, start, truth, seen) <= 1) <==>
            Refilled(l.rate, 0.0, back) <= 1.0
  {
    BackwardClockLossIff(l, start, back, 2);
    if Refilled(l.rate, 0.0, back) <= 1.0 {
      forall truth, seen, cut | GoesBack(truth, seen, cut, back)
        ensures Lost(l, start, truth, seen) <= 1
      {
        LossIsBounded(l, start, truth, seen, cut, back);
      }
    } else {
      var truth, seen, cut := SomeRunLoses(l, start, back, 2);
    }
  }
}
