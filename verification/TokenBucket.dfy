/** The lazily refilled token bucket of internal/gangway/rate.go.

    Instants are real seconds and tokens are real numbers, so float64 rounding is not modelled. A run of the
    bucket is the sequence of instants its calls carry, in the order in which they take the mutex. The clock is
    read before the mutex is taken, so that sequence need not be ordered. */
module TokenBucket {

  /** Seconds of tokens the request bucket holds. */
  const BURST_SECONDS := 4.0

  /** Shortest gap between two warnings about a failing daemon, in seconds. */
  const UPSTREAM_WARN_INTERVAL := 30.0

  datatype Limits = Limits(rate: real, capacity: real)

  datatype Level = Level(tokens: real, last: real)

  ghost predicate ValidLimits(l: Limits) {
    l.rate > 0.0 && l.capacity >= 1.0
  }

  // ---------------------------------------------------------------- the bucket

  function Min(a: real, b: real): real {
    if a < b then a else b
  }

  function Max(a: real, b: real): real {
    if a > b then a else b
  }

  function Full(l: Limits, start: real): Level {
    Level(l.capacity, start)
  }

  function Refill(l: Limits, s: Level, now: real): Level {
    var elapsed := now - s.last;
    if elapsed > 0.0 then Level(Min(l.capacity, s.tokens + elapsed * l.rate), now) else s
  }

  /** Take a token if there is one. */
  function Spend(s: Level): (Level, bool) {
    if s.tokens < 1.0 then (s, false) else (Level(s.tokens - 1.0, s.last), true)
  }

  /** One call of `allow`: the level it leaves and whether it was admitted. */
  function Take(l: Limits, s: Level, now: real): (Level, bool) {
    Spend(Refill(l, s, now))
  }

  function After(l: Limits, start: real, calls: seq<real>): Level {
    if calls == [] then Full(l, start)
    else Take(l, After(l, start, calls[..|calls| - 1]), calls[|calls| - 1]).0
  }

  function Decisions(l: Limits, start: real, calls: seq<real>): (d: seq<bool>)
    ensures |d| == |calls|
  {
    if calls == [] then []
    else
      var front := calls[..|calls| - 1];
      Decisions(l, start, front) + [Take(l, After(l, start, front), calls[|calls| - 1]).1]
  }

  class Bucket {
    const rate: real
    const capacity: real
    var tokens: real
    var last: real

    ghost function Bounds(): Limits {
      Limits(rate, capacity)
    }

    ghost function Value(): Level
      reads this
    {
      Level(tokens, last)
    }

    constructor (rate: real, capacity: real, now: real)
      ensures Bounds() == Limits(rate, capacity) && Value() == Full(Bounds(), now)
    {
      this.tokens := capacity;
      this.capacity := capacity;
      this.rate := rate;
      this.last := now;
    }

    method Allow(now: real) returns (ok: bool)
      modifies this
      ensures (Value(), ok) == Take(Bounds(), old(Value()), now)
    {
      var elapsed := now - last;
      ghost var refilled := Refill(Bounds(), Value(), now);
      if elapsed > 0.0 {
        assert refilled.tokens == Min(capacity, tokens + elapsed * rate);
        last := now;
        tokens := Min(capacity, tokens + elapsed * rate);
      }
      assert Value() == refilled;
      if tokens < 1.0 {
        return false;
      }
      tokens := tokens - 1.0;
      return true;
    }
  }

  /** A non-positive rate gives no bucket, which means no limit; a capacity under one token is raised to one. */
  method NewBucket(rate: real, capacity: real, now: real) returns (b: Bucket?)
    ensures b == null <==> rate <= 0.0
    ensures b != null ==>
              fresh(b) && b.Bounds() == Limits(rate, Max(capacity, 1.0)) && ValidLimits(b.Bounds()) &&
              b.Value() == Full(b.Bounds(), now)
  {
    if rate <= 0.0 {
      return null;
    }
    b := new Bucket(rate, if capacity < 1.0 then 1.0 else capacity, now);
  }

  /** A run of calls on one object gives the decisions, and leaves the level, of the specification. */
  method AllowAll(b: Bucket, start: real, calls: seq<real>) returns (d: seq<bool>)
    requires b.Value() == Full(b.Bounds(), start)
    modifies b
    ensures d == Decisions(b.Bounds(), start, calls) && b.Value() == After(b.Bounds(), start, calls)
  {
    d := [];
    for i := 0 to |calls|
      invariant d == Decisions(b.Bounds(), start, calls[..i]) && b.Value() == After(b.Bounds(), start, calls[..i])
    {
      assert calls[..i + 1][..i] == calls[..i];
      var ok := b.Allow(calls[i]);
      d := d + [ok];
    }
    assert calls[..|calls|] == calls;
  }

  // ------------------------------------------------------- the two bucket uses

  /** The limits NewHandler gives the request bucket. */
  function RequestLimits(maxRate: nat, maxConcurrent: nat): Limits {
    Limits(maxRate as real, Max(maxRate as real * BURST_SECONDS, maxConcurrent as real))
  }

  function WarnLimits(): Limits {
    Limits(1.0 / UPSTREAM_WARN_INTERVAL, 1.0)
  }
}
