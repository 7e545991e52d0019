/** The window law of the token bucket: however the clocks of its calls are ordered, what it admits is what no window
    of calls is overrun by. */
module TokenLaw {
  import opened Counting
  import opened TokenBucket

  /** The latest instant any of the calls carried, never earlier than the start. */
  function HighWater(start: real, calls: seq<real>): real {
    if calls == [] then start
    else Max(HighWater(start, calls[..|calls| - 1]), calls[|calls| - 1])
  }

  /** It is one of these instants, and none is later. */
  lemma {:induction false} HighWaterIsLatest(start: real, calls: seq<real>)
    ensures HighWater(start, calls) == start || HighWater(start, calls) in calls
    ensures HighWater(start, calls) >= start && forall now :: now in calls ==> HighWater(start, calls) >= now
  {
    if calls != [] {
      var n := |calls| - 1;
      assert calls == calls[..n] + [calls[n]];
      HighWaterIsLatest(start, calls[..n]);
    }
  }

  /** The high-water clock once the first `n` calls have been made. */
  ghost function Clock(start: real, calls: seq<real>, n: nat): real
    requires n <= |calls|
  {
    HighWater(start, calls[..n])
  }

  /** The tokens the clock makes between two instants. */
  ghost function Refilled(rate: real, from: real, to: real): real {
    (to - from) * rate
  }

  lemma PositiveProduct(a: real, b: real)
    requires a > 0.0 && b > 0.0
    ensures a * b > 0.0
  {
  }

  lemma RefilledSign(rate: real, from: real, to: real)
    requires rate > 0.0
    ensures to > from <==> Refilled(rate, from, to) > 0.0
    ensures to == from <==> Refilled(rate, from, to) == 0.0
  {
    if to > from {
      PositiveProduct(to - from, rate);
    } else if to < from {
      PositiveProduct(from - to, rate);
      assert Refilled(rate, from, to) == -((from - to) * rate);
    }
  }

  lemma RefilledAdds(rate: real, a: real, b: real, c: real)
    ensures Refilled(rate, a, b) + Refilled(rate, b, c) == Refilled(rate, a, c)
  {
  }

  /** A refill, in terms of the high-water clock. */
  lemma RefillTokens(l: Limits, s: Level, now: real)
    requires ValidLimits(l) && s.tokens <= l.capacity
    ensures var clock := Max(s.last, now);
            Refill(l, s, now) == Level(Min(l.capacity, s.tokens + Refilled(l.rate, s.last, clock)), clock)
  {
    if now > s.last {
      var elapsed := now - s.last;
      assert elapsed * l.rate == Refilled(l.rate, s.last, now);
    } else {
      RefilledSign(l.rate, s.last, s.last);
    }
  }

  /** A refill that does not fill the bucket adds all of what the clock has made. */
  lemma RefillBelowCapacity(l: Limits, s: Level, now: real)
    requires now > s.last && Refill(l, s, now).tokens < l.capacity
    ensures Refill(l, s, now) == Level(s.tokens + Refilled(l.rate, s.last, now), now)
  {
    var elapsed := now - s.last;
    assert elapsed * l.rate == Refilled(l.rate, s.last, now);
  }

  predicate IsAdmitted(d: bool) {
    d
  }

  ghost function Admitted(d: seq<bool>): nat {
    Count(d, IsAdmitted)
  }

  /** What capacity and refill allow in a window over calls `j` up to, not including, `n`. */
  ghost function Allowance(l: Limits, start: real, calls: seq<real>, j: nat, n: nat): real
    requires j < n <= |calls|
  {
    l.capacity + Refilled(l.rate, Clock(start, calls, j + 1), Clock(start, calls, n))
  }

  /** What such a window still has room for. */
  ghost function Room(l: Limits, start: real, calls: seq<real>, d: seq<bool>, j: nat, n: nat): real
    requires j < n <= |calls| == |d|
  {
    Allowance(l, start, calls, j, n) - Admitted(d[j..n]) as real
  }

  /** The tokens left are the least room over all windows that end with the last call. */
  ghost predicate IsLeastRoom(l: Limits, start: real, calls: seq<real>, d: seq<bool>, tokens: real)
    requires |calls| == |d|
  {
    && (forall j :: 0 <= j < |calls| ==> tokens <= Room(l, start, calls, d, j, |calls|))
    && (exists j :: 0 <= j < |calls| && tokens == Room(l, start, calls, d, j, |calls|))
  }

  /** Admitting call `i` overruns no window that ends at it. */
  ghost predicate Fits(l: Limits, start: real, calls: seq<real>, d: seq<bool>, i: nat)
    requires i < |calls| && i <= |d|
  {
    forall j :: 0 <= j <= i ==> Admitted(d[j..i]) as real + 1.0 <= Allowance(l, start, calls, j, i + 1)
  }

  lemma {:induction false} HighWaterMonotone(start: real, calls: seq<real>, i: nat, j: nat)
    requires i <= j <= |calls|
    ensures HighWater(start, calls[..i]) <= HighWater(start, calls[..j])
  {
    if i < j {
      assert calls[..j][..j - 1] == calls[..j - 1];
      HighWaterMonotone(start, calls, i, j - 1);
    }
  }

  lemma RoomExtends(l: Limits, start: real, calls: seq<real>, d: seq<bool>, x: real, b: bool, j: nat)
    requires j < |calls| == |d|
    ensures Room(l, start, calls + [x], d + [b], j, |calls| + 1)
         == Room(l, start, calls, d, j, |calls|)
            + Refilled(l.rate, HighWater(start, calls), HighWater(start, calls + [x])) - if b then 1.0 else 0.0
  {
    var n := |calls|;
    assert (calls + [x])[..n + 1] == calls + [x] && calls[..n] == calls;
    assert (calls + [x])[..j + 1] == calls[..j + 1];
    assert (d + [b])[j..n + 1] == d[j..n] + [b];
    CountAppend(d[j..n], b, IsAdmitted);
  }

  /** A window that has just opened has all of the capacity, less the one call in it. */
  lemma RoomOpens(l: Limits, start: real, calls: seq<real>, d: seq<bool>)
    requires |calls| == |d| > 0
    ensures Room(l, start, calls, d, |calls| - 1, |calls|) == l.capacity - if d[|d| - 1] then 1.0 else 0.0
  {
    var n := |calls|;
    assert d[n - 1..n] == [] + [d[n - 1]];
    CountAppend([], d[n - 1], IsAdmitted);
  }

  lemma {:induction false} LevelBounds(l: Limits, start: real, calls: seq<real>)
    requires ValidLimits(l)
    ensures After(l, start, calls).last == HighWater(start, calls)
    ensures 0.0 <= After(l, start, calls).tokens <= l.capacity
  {
    if calls != [] {
      var front := calls[..|calls| - 1];
      var s, now := After(l, start, front), calls[|calls| - 1];
      LevelBounds(l, start, front);
      RefillTokens(l, s, now);
      RefilledSign(l.rate, s.last, Max(s.last, now));
    }
  }

  /** One call adds what the clock earned, up to the capacity, and takes the token it admits. */
  lemma LevelStep(l: Limits, start: real, front: seq<real>, now: real)
    requires ValidLimits(l)
    ensures var s, r := After(l, start, front), After(l, start, front + [now]);
            var earned := Refilled(l.rate, HighWater(start, front), HighWater(start, front + [now]));
            var b := Take(l, s, now).1;
            && Decisions(l, start, front + [now]) == Decisions(l, start, front) + [b]
            && b == (Min(l.capacity, s.tokens + earned) >= 1.0)
            && r.tokens == Next(l, s.tokens, earned, b)
  {
    LevelBounds(l, start, front);
    RefillTokens(l, After(l, start, front), now);
    assert (front + [now])[..|front|] == front;
  }

  /** The level one more call leaves, given the level before it. */
  ghost function Next(l: Limits, tokens: real, earned: real, b: bool): real {
    Min(l.capacity, tokens + earned) - if b then 1.0 else 0.0
  }

  lemma LeastRoomExtends(l: Limits, start: real, front: seq<real>, d: seq<bool>, now: real, b: bool, tokens: real)
    requires ValidLimits(l) && |front| == |d|
    requires if front == [] then tokens == l.capacity else IsLeastRoom(l, start, front, d, tokens)
    ensures IsLeastRoom(l, start, front + [now], d + [b],
                        Next(l, tokens, Refilled(l.rate, HighWater(start, front), HighWater(start, front + [now])), b))
  {
    var n, calls, d' := |front|, front + [now], d + [b];
    var earned := Refilled(l.rate, HighWater(start, front), HighWater(start, calls));
    var tokens' := Next(l, tokens, earned, b);
    assert calls[..n] == front;
    RoomOpens(l, start, calls, d');
    RefilledSign(l.rate, HighWater(start, front), HighWater(start, calls));
    forall j | 0 <= j < |calls|
      ensures tokens' <= Room(l, start, calls, d', j, |calls|)
    {
      if j < n {
        RoomExtends(l, start, front, d, now, b, j);
        assert tokens <= Room(l, start, front, d, j, n);
      }
    }
    if n > 0 && tokens + earned <= l.capacity {
      var k :| 0 <= k < n && tokens == Room(l, start, front, d, k, n);
      RoomExtends(l, start, front, d, now, b, k);
      assert tokens' == Room(l, start, calls, d', k, |calls|);
    } else {
      assert tokens' == Room(l, start, calls, d', n, |calls|);
    }
  }

  ghost predicate HoldsLeastRoom(l: Limits, start: real, calls: seq<real>) {
    IsLeastRoom(l, start, calls, Decisions(l, start, calls), After(l, start, calls).tokens)
  }

  lemma LeastRoomStep(l: Limits, start: real, front: seq<real>, now: real)
    requires ValidLimits(l) && (front == [] || HoldsLeastRoom(l, start, front))
    ensures HoldsLeastRoom(l, start, front + [now])
  {
    var d, s := Decisions(l, start, front), After(l, start, front);
    LevelStep(l, start, front, now);
    LeastRoomExtends(l, start, front, d, now, Take(l, s, now).1, s.tokens);
  }

  /** The exact law: however the clocks of the calls are ordered, the tokens left are the least, over every window
      that ends now, of the window's allowance less the calls admitted in it. */
  lemma {:induction false} TokensAreExact(l: Limits, start: real, calls: seq<real>)
    requires ValidLimits(l) && calls != []
    ensures HoldsLeastRoom(l, start, calls)
  {
    var n := |calls| - 1;
    assert calls == calls[..n] + [calls[n]];
    if n > 0 {
      TokensAreExact(l, start, calls[..n]);
    }
    LeastRoomStep(l, start, calls[..n], calls[n]);
  }

  lemma {:induction false} DecisionsPrefix(l: Limits, start: real, calls: seq<real>, n: nat)
    requires n <= |calls|
    ensures Decisions(l, start, calls[..n]) == Decisions(l, start, calls)[..n]
  {
    if n < |calls| {
      var front := calls[..|calls| - 1];
      DecisionsPrefix(l, start, front, n);
      assert front[..n] == calls[..n];
      assert Decisions(l, start, calls)[..n] == Decisions(l, start, front)[..n];
    } else {
      assert calls[..n] == calls;
    }
  }

  /** The room a call leaves in a window is the window's allowance less what was admitted before the call, and
      less the call itself. */
  lemma RoomAtCall(l: Limits, start: real, calls: seq<real>, d: seq<bool>, j: nat, i: nat)
    requires j <= i < |calls| == |d|
    ensures Room(l, start, calls[..i + 1], d[..i + 1], j, i + 1)
         == Allowance(l, start, calls, j, i + 1) - Admitted(d[j..i]) as real - if d[i] then 1.0 else 0.0
  {
    assert calls[..i + 1][..i + 1] == calls[..i + 1] && calls[..i + 1][..j + 1] == calls[..j + 1];
    assert d[..i + 1][j..i + 1] == d[j..i] + [d[i]];
    CountAppend(d[j..i], d[i], IsAdmitted);
  }

  lemma TokensAtCall(l: Limits, start: real, calls: seq<real>, i: nat) returns (tokens: real)
    requires ValidLimits(l) && i < |calls|
    ensures IsLeastRoom(l, start, calls[..i + 1], Decisions(l, start, calls)[..i + 1], tokens)
    ensures 0.0 <= tokens
    ensures !Decisions(l, start, calls)[i] ==> tokens < 1.0
  {
    var upTo := calls[..i + 1];
    DecisionsPrefix(l, start, calls, i + 1);
    TokensAreExact(l, start, upTo);
    LevelBounds(l, start, upTo);
    assert upTo == calls[..i] + [calls[i]];
    LevelStep(l, start, calls[..i], calls[i]);
    tokens := After(l, start, upTo).tokens;
  }

  /** A call is admitted exactly when that overruns no window ending at it. */
  lemma AdmittedIffNoWindowIsOverrun(l: Limits, start: real, calls: seq<real>, i: nat)
    requires ValidLimits(l) && i < |calls|
    ensures Decisions(l, start, calls)[i] <==> Fits(l, start, calls, Decisions(l, start, calls), i)
  {
    var d, n := Decisions(l, start, calls), i + 1;
    var tokens := TokensAtCall(l, start, calls, i);
    if d[i] {
      forall j | 0 <= j <= i
        ensures Admitted(d[j..i]) as real + 1.0 <= Allowance(l, start, calls, j, n)
      {
        RoomAtCall(l, start, calls, d, j, i);
        assert tokens <= Room(l, start, calls[..n], d[..n], j, n);
      }
    } else {
      var k :| 0 <= k < n && tokens == Room(l, start, calls[..n], d[..n], k, n);
      RoomAtCall(l, start, calls, d, k, i);
      assert !(Admitted(d[k..i]) as real + 1.0 <= Allowance(l, start, calls, k, n));
    }
  }

  /** Whether call `i` fits depends on no decision but those before it. */
  lemma FitsLooksBack(l: Limits, start: real, calls: seq<real>, d: seq<bool>, e: seq<bool>, i: nat)
    requires i < |calls| && i <= |d| && i <= |e| && d[..i] == e[..i]
    ensures Fits(l, start, calls, d, i) <==> Fits(l, start, calls, e, i)
  {
    assert forall j :: 0 <= j <= i ==> d[j..i] == d[..i][j..] && e[j..i] == e[..i][j..];
  }

  /** The bucket is the only policy that admits exactly the calls which overrun no window. */
  lemma WindowPolicyIsUnique(l: Limits, start: real, calls: seq<real>, d: seq<bool>)
    requires ValidLimits(l) && |d| == |calls|
    requires forall i :: 0 <= i < |calls| ==> (d[i] <==> Fits(l, start, calls, d, i))
    ensures d == Decisions(l, start, calls)
  {
    var e := Decisions(l, start, calls);
    for i := 0 to |calls|
      invariant d[..i] == e[..i]
    {
      AdmittedIffNoWindowIsOverrun(l, start, calls, i);
      FitsLooksBack(l, start, calls, d, e, i);
      assert d[..i + 1] == d[..i] + [d[i]] && e[..i + 1] == e[..i] + [e[i]];
    }
  }

  /** In any window of calls, admissions are bounded by the capacity plus what the elapsed time refilled. */
  lemma AdmissionsInWindow(l: Limits, start: real, calls: seq<real>, j: nat, n: nat)
    requires ValidLimits(l) && j < n <= |calls|
    ensures Admitted(Decisions(l, start, calls)[j..n]) as real <= Allowance(l, start, calls, j, n)
  {
    var upTo := calls[..n];
    DecisionsPrefix(l, start, calls, n);
    TokensAreExact(l, start, upTo);
    LevelBounds(l, start, upTo);
    assert upTo[..n] == upTo && upTo[..j + 1] == calls[..j + 1];
    assert Decisions(l, start, calls)[..n][j..n] == Decisions(l, start, calls)[j..n];
    assert 0.0 <= Room(l, start, upTo, Decisions(l, start, upTo), j, n);
  }

  lemma {:induction false} AdmittedAtMostLength(d: seq<bool>)
    ensures Admitted(d) <= |d|
  {
    if d != [] {
      AdmittedAtMostLength(d[1..]);
    }
  }

  /** The first calls, as many as the capacity covers, are all admitted. */
  lemma BurstIsAdmitted(l: Limits, start: real, calls: seq<real>, i: nat)
    requires ValidLimits(l) && i < |calls| && i as real + 1.0 <= l.capacity
    ensures Decisions(l, start, calls)[i]
  {
    var d := Decisions(l, start, calls);
    AdmittedIffNoWindowIsOverrun(l, start, calls, i);
    forall j | 0 <= j <= i
      ensures Admitted(d[j..i]) as real + 1.0 <= Allowance(l, start, calls, j, i + 1)
    {
      AdmittedAtMostLength(d[j..i]);
      HighWaterMonotone(start, calls, j + 1, i + 1);
      RefilledSign(l.rate, Clock(start, calls, j + 1), Clock(start, calls, i + 1));
    }
  }

  /** The last call before `k` that was admitted, if any was from `j` on. */
  lemma {:induction false} LastAdmitted(d: seq<bool>, j: nat, k: nat) returns (i: nat)
    requires j <= k <= |d| && Admitted(d[j..k]) > 0
    ensures j <= i < k && d[i] && Admitted(d[j..k]) == Admitted(d[j..i]) + 1
    decreases k
  {
    assert d[j..k] == d[j..k - 1] + [d[k - 1]];
    CountAppend(d[j..k - 1], d[k - 1], IsAdmitted);
    i := k - 1;
    if !d[k - 1] {
      i := LastAdmitted(d, j, k - 1);
    }
  }

  /** The clock has made a token since each earlier call that was admitted. */
  ghost predicate IsSpaced(l: Limits, start: real, calls: seq<real>, k: nat)
    requires k < |calls|
  {
    forall i :: 0 <= i < k && Decisions(l, start, calls)[i] ==>
      Refilled(l.rate, Clock(start, calls, i + 1), Clock(start, calls, k + 1)) >= 1.0
  }

  lemma RefusedIsNotSpaced(l: Limits, start: real, calls: seq<real>, k: nat, j: nat)
    requires ValidLimits(l) && l.capacity == 1.0 && j <= k < |calls|
    requires Admitted(Decisions(l, start, calls)[j..k]) as real + 1.0 > Allowance(l, start, calls, j, k + 1)
    ensures !IsSpaced(l, start, calls, k)
  {
    var d := Decisions(l, start, calls);
    var from, to := Clock(start, calls, j + 1), Clock(start, calls, k + 1);
    HighWaterMonotone(start, calls, j + 1, k + 1);
    RefilledSign(l.rate, from, to);
    var i := LastAdmitted(d, j, k);
    AdmittedIffNoWindowIsOverrun(l, start, calls, i);
    assert Admitted(d[j..i]) as real + 1.0 <= Allowance(l, start, calls, j, i + 1);
    RefilledAdds(l.rate, from, Clock(start, calls, i + 1), to);
  }

  /** A bucket of one token admits a call exactly if each earlier call that it admitted has a token's refill between
      them. */
  lemma SingleTokenIff(l: Limits, start: real, calls: seq<real>, k: nat)
    requires ValidLimits(l) && l.capacity == 1.0 && k < |calls|
    ensures Decisions(l, start, calls)[k] <==> IsSpaced(l, start, calls, k)
  {
    var d := Decisions(l, start, calls);
    AdmittedIffNoWindowIsOverrun(l, start, calls, k);
    if d[k] {
      forall i | 0 <= i < k && d[i]
        ensures Refilled(l.rate, Clock(start, calls, i + 1), Clock(start, calls, k + 1)) >= 1.0
      {
        CountPositive(d[i..k], 0, IsAdmitted);
        assert Admitted(d[i..k]) as real + 1.0 <= Allowance(l, start, calls, i, k + 1);
      }
    } else {
      var j :| 0 <= j <= k && !(Admitted(d[j..k]) as real + 1.0 <= Allowance(l, start, calls, j, k + 1));
      RefusedIsNotSpaced(l, start, calls, k, j);
    }
  }

  // ------------------------------------------------ refused calls leave no trace

  /** The members of `xs` whose mark is set. */
  function Kept<T>(xs: seq<T>, keep: seq<bool>): seq<T>
    requires |xs| == |keep|
  {
    if xs == [] then []
    else Kept(xs[..|xs| - 1], keep[..|keep| - 1]) + if keep[|keep| - 1] then [xs[|xs| - 1]] else []
  }

  /** `s` is where `t` would be after refused calls that only `s` has seen. */
  ghost predicate Lags(l: Limits, s: Level, t: Level) {
    s == t || (s.tokens < 1.0 && t.last <= s.last && s.tokens == t.tokens + Refilled(l.rate, t.last, s.last))
  }

  /** Both levels after a refill are one, or neither has a token. */
  lemma RefillLags(l: Limits, s: Level, t: Level, now: real)
    requires ValidLimits(l) && Lags(l, s, t)
    ensures var r, u := Refill(l, s, now), Refill(l, t, now);
            r == u || (r.tokens < 1.0 && u.tokens < 1.0 && Lags(l, r, u))
  {
    if s != t {
      var late := Refilled(l.rate, t.last, s.last);
      RefilledSign(l.rate, t.last, s.last);
      RefillTokens(l, s, now);
      RefillTokens(l, t, now);
      if now > s.last {
        RefilledAdds(l.rate, t.last, s.last, now);
        assert Refill(l, s, now) == Refill(l, t, now);
      } else if now > t.last {
        RefilledAdds(l.rate, t.last, now, s.last);
        RefilledSign(l.rate, now, s.last);
        assert Refill(l, s, now) == s && Refill(l, t, now).tokens == s.tokens - Refilled(l.rate, now, s.last);
      } else {
        assert Refill(l, s, now) == s && Refill(l, t, now) == t && t.tokens == s.tokens - late;
      }
    }
  }

  lemma LagsAcrossKept(l: Limits, s: Level, t: Level, now: real)
    requires ValidLimits(l) && Lags(l, s, t)
    ensures Take(l, s, now).1 == Take(l, t, now).1
    ensures Lags(l, Take(l, s, now).0, Take(l, t, now).0)
  {
    RefillLags(l, s, t, now);
  }

  lemma LagsAcrossRefused(l: Limits, s: Level, t: Level, now: real)
    requires ValidLimits(l) && Lags(l, s, t) && !Take(l, s, now).1
    ensures Lags(l, Take(l, s, now).0, t)
  {
    assert Refill(l, s, now) == Take(l, s, now).0;
    RefilledSign(l.rate, s.last, s.last);
    if now > s.last {
      RefillBelowCapacity(l, s, now);
      RefilledAdds(l.rate, t.last, s.last, now);
    }
  }

  lemma KeptStep<T>(xs: seq<T>, keep: seq<bool>, n: nat)
    requires |xs| == |keep| == n + 1
    ensures Kept(xs, keep) == if keep[n] then Kept(xs[..n], keep[..n]) + [xs[n]] else Kept(xs[..n], keep[..n])
  {
  }

  lemma RunStep(l: Limits, start: real, front: seq<real>, now: real)
    ensures After(l, start, front + [now]) == Take(l, After(l, start, front), now).0
    ensures Decisions(l, start, front + [now]) == Decisions(l, start, front) + [Take(l, After(l, start, front), now).1]
  {
    assert (front + [now])[..|front|] == front;
  }

  /** Deleting any of the refused calls of a run, or all of them, only makes the bucket lag behind in refilling, and
      changes no decision about the rest. */
  lemma {:induction false} RefusedCallsAreUnobservable(l: Limits, start: real, calls: seq<real>, keep: seq<bool>)
    requires ValidLimits(l) && |keep| == |calls|
    requires forall i :: 0 <= i < |calls| && !keep[i] ==> !Decisions(l, start, calls)[i]
    ensures Lags(l, After(l, start, calls), After(l, start, Kept(calls, keep)))
    ensures Decisions(l, start, Kept(calls, keep)) == Kept(Decisions(l, start, calls), keep)
  {
    if calls != [] {
      var n := |calls| - 1;
      var front, marks, now := calls[..n], keep[..n], calls[n];
      var d := Decisions(l, start, front);
      assert calls == front + [now];
      RunStep(l, start, front, now);
      assert forall i :: 0 <= i < n ==> Decisions(l, start, calls)[i] == d[i];
      assert Decisions(l, start, calls)[..n] == d;
      RefusedCallsAreUnobservable(l, start, front, marks);
      KeptStep(calls, keep, n);
      KeptStep(Decisions(l, start, calls), keep, n);
      var s, t := After(l, start, front), After(l, start, Kept(front, marks));
      if keep[n] {
        RunStep(l, start, Kept(front, marks), now);
        LagsAcrossKept(l, s, t, now);
      } else {
        LagsAcrossRefused(l, s, t, now);
      }
    }
  }

  // -------------------------------------------------------- clocks that go backward

  /** The calls of a run, with the high-water clock in place of each instant. */
  ghost function HighWaters(start: real, calls: seq<real>): (h: seq<real>)
    ensures |h| == |calls|
  {
    if calls == [] then []
    else HighWaters(start, calls[..|calls| - 1]) + [HighWater(start, calls)]
  }

  /** A run is the run on its high-water clock: an instant that goes back counts as the latest one before it. */
  lemma {:induction false} OnlyTheHighWaterCounts(l: Limits, start: real, calls: seq<real>)
    requires ValidLimits(l)
    ensures After(l, start, HighWaters(start, calls)) == After(l, start, calls)
    ensures Decisions(l, start, HighWaters(start, calls)) == Decisions(l, start, calls)
  {
    if calls != [] {
      var n := |calls| - 1;
      var front, now := calls[..n], calls[n];
      assert calls == front + [now];
      OnlyTheHighWaterCounts(l, start, front);
      LevelBounds(l, start, front);
      RunStep(l, start, front, now);
      RunStep(l, start, HighWaters(start, front), HighWater(start, calls));
    }
  }

  // ------------------------------------------------------- the two bucket uses

  function Repeat(n: nat, x: real): (calls: seq<real>)
    ensures |calls| == n && forall i :: 0 <= i < n ==> calls[i] == x
  {
    if n == 0 then [] else Repeat(n - 1, x) + [x]
  }

  lemma RunAppendCall(l: Limits, start: real, front: seq<real>, now: real)
    ensures After(l, start, front + [now]) == Take(l, After(l, start, front), now).0
    ensures Admitted(Decisions(l, start, front + [now]))
         == Admitted(Decisions(l, start, front)) + if Take(l, After(l, start, front), now).1 then 1 else 0
  {
    RunStep(l, start, front, now);
    CountAppend(Decisions(l, start, front), Take(l, After(l, start, front), now).1, IsAdmitted);
  }

  lemma RepeatLast(front: seq<real>, n: nat, x: real)
    requires n > 0
    ensures front + Repeat(n, x) == front + Repeat(n - 1, x) + [x]
  {
  }

  /** Calls at one instant are admitted while there are tokens. */
  lemma {:induction false} RepeatAdmitted(l: Limits, start: real, front: seq<real>, n: nat, x: real)
    requires n > 0 && Refill(l, After(l, start, front), x).tokens >= n as real
    ensures var r := Refill(l, After(l, start, front), x);
            After(l, start, front + Repeat(n, x)) == Level(r.tokens - n as real, r.last)
    ensures Admitted(Decisions(l, start, front + Repeat(n, x))) == Admitted(Decisions(l, start, front)) + n
  {
    RepeatLast(front, n, x);
    if n > 1 {
      RepeatAdmitted(l, start, front, n - 1, x);
    } else {
      assert front + Repeat(0, x) == front;
    }
    RunAppendCall(l, start, front + Repeat(n - 1, x), x);
  }

  /** `k` calls at `start` have been admitted, and the tokens for them are gone. */
  ghost predicate HasSpent(l: Limits, start: real, calls: seq<real>, k: nat) {
    Admitted(Decisions(l, start, calls)) == k && After(l, start, calls) == Level(l.capacity - k as real, start)
  }

  lemma SpendsNext(l: Limits, start: real, front: seq<real>, k: nat)
    requires k <= l.capacity.Floor && HasSpent(l, start, front, k)
    ensures HasSpent(l, start, front + [start], if k < l.capacity.Floor then k + 1 else k)
  {
    var s := After(l, start, front);
    assert Refill(l, s, start) == s;
    RunAppendCall(l, start, front, start);
  }

  /** Of any number of calls at the instant it is made, a bucket admits as many as it has whole tokens. */
  lemma {:induction false} FreshBurst(l: Limits, start: real, n: nat)
    requires ValidLimits(l)
    ensures HasSpent(l, start, Repeat(n, start), if n < l.capacity.Floor then n else l.capacity.Floor)
  {
    if n > 0 {
      FreshBurst(l, start, n - 1);
      SpendsNext(l, start, Repeat(n - 1, start), if n - 1 < l.capacity.Floor then n - 1 else l.capacity.Floor);
    }
  }

  /** Four seconds of requests, or one for each slot if that is more: so many, and no more, does a fresh handler let
      through at one instant. */
  lemma RequestBurst(maxRate: nat, maxConcurrent: nat, start: real, n: nat)
    requires maxRate >= 1 && maxConcurrent >= 1
    ensures var burst := if 4 * maxRate >= maxConcurrent then 4 * maxRate else maxConcurrent;
            Admitted(Decisions(RequestLimits(maxRate, maxConcurrent), start, Repeat(n, start)))
            == if n < burst then n else burst
  {
    FreshBurst(RequestLimits(maxRate, maxConcurrent), start, n);
    assert maxRate as real * BURST_SECONDS == (4 * maxRate) as real;
  }

  /** In any window, so many and one for each part of a second that the rate makes of the time elapsed. */
  lemma RequestsInWindow(maxRate: nat, maxConcurrent: nat, start: real, calls: seq<real>, j: nat, n: nat)
    requires maxRate >= 1 && maxConcurrent >= 1 && j < n <= |calls|
    ensures var burst := if 4 * maxRate >= maxConcurrent then 4 * maxRate else maxConcurrent;
            Admitted(Decisions(RequestLimits(maxRate, maxConcurrent), start, calls)[j..n]) as real
            <= burst as real + Refilled(maxRate as real, Clock(start, calls, j + 1), Clock(start, calls, n))
  {
    AdmissionsInWindow(RequestLimits(maxRate, maxConcurrent), start, calls, j, n);
    assert maxRate as real * BURST_SECONDS == (4 * maxRate) as real;
  }

  /** Whatever the rate, the first calls, as many as there are slots, are all admitted: the rate limit never decides how
      much work the proxy can start at once. */
  lemma BurstCoversTheSlots(maxRate: nat, maxConcurrent: nat, start: real, calls: seq<real>, i: nat)
    requires maxRate >= 1 && maxConcurrent >= 1 && i < |calls| && i < maxConcurrent
    ensures Decisions(RequestLimits(maxRate, maxConcurrent), start, calls)[i]
  {
    BurstIsAdmitted(RequestLimits(maxRate, maxConcurrent), start, calls, i);
  }

  lemma WarnRefill(from: real, to: real)
    ensures Refilled(WarnLimits().rate, from, to) >= 1.0 <==> to - from >= 30.0
  {
    assert Refilled(WarnLimits().rate, from, to) == (to - from) / 30.0;
  }

  /** A warning is written exactly if every one written before it lies at least thirty seconds back on the high-water
      clock; so the first is. */
  lemma WarningsIff(start: real, calls: seq<real>, k: nat)
    requires k < |calls|
    ensures Decisions(WarnLimits(), start, calls)[k] <==>
            forall i :: 0 <= i < k && Decisions(WarnLimits(), start, calls)[i] ==>
              Clock(start, calls, k + 1) - Clock(start, calls, i + 1) >= 30.0
  {
    SingleTokenIff(WarnLimits(), start, calls, k);
    forall i | 0 <= i < k && Decisions(WarnLimits(), start, calls)[i]
      ensures Refilled(WarnLimits().rate, Clock(start, calls, i + 1), Clock(start, calls, k + 1)) >= 1.0 <==>
              Clock(start, calls, k + 1) - Clock(start, calls, i + 1) >= 30.0
    {
      WarnRefill(Clock(start, calls, i + 1), Clock(start, calls, k + 1));
    }
  }
}
