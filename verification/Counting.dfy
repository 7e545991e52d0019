/** Counting the members of a sequence that satisfy a predicate. */
module Counting {

  ghost function Count<T>(s: seq<T>, p: T -> bool): nat {
    if s == [] then 0 else Count(s[1..], p) + if p(s[0]) then 1 else 0
  }

  lemma {:induction false} CountConcat<T>(s: seq<T>, t: seq<T>, p: T -> bool)
    ensures Count(s + t, p) == Count(s, p) + Count(t, p)
  {
    if s == [] {
      assert s + t == t;
    } else {
      assert (s + t)[1..] == s[1..] + t;
      CountConcat(s[1..], t, p);
    }
  }

  lemma CountAppend<T>(s: seq<T>, x: T, p: T -> bool)
    ensures Count(s + [x], p) == Count(s, p) + if p(x) then 1 else 0
  {
    CountConcat(s, [x], p);
  }

  /** Replacing one member moves the count by what that member counted for. */
  lemma CountUpdate<T>(s: seq<T>, i: nat, x: T, p: T -> bool)
    requires i < |s|
    ensures Count(s[i := x], p) == Count(s, p) - (if p(s[i]) then 1 else 0) + (if p(x) then 1 else 0)
  {
    assert s == s[..i] + [s[i]] + s[i + 1..];
    assert s[i := x] == s[..i] + [x] + s[i + 1..];
    CountConcat(s[..i] + [s[i]], s[i + 1..], p);
    CountConcat(s[..i] + [x], s[i + 1..], p);
    CountAppend(s[..i], s[i], p);
    CountAppend(s[..i], x, p);
  }

  lemma {:induction false} CountPositive<T>(s: seq<T>, i: nat, p: T -> bool)
    requires i < |s| && p(s[i])
    ensures Count(s, p) > 0
  {
    if i > 0 {
      CountPositive(s[1..], i - 1, p);
    }
  }

  lemma {:induction false} CountNone<T>(s: seq<T>, p: T -> bool)
    requires forall i :: 0 <= i < |s| ==> !p(s[i])
    ensures Count(s, p) == 0
  {
    if s != [] {
      CountNone(s[1..], p);
    }
  }

  /** A stronger predicate counts no more. */
  lemma {:induction false} CountWeaken<T>(s: seq<T>, p: T -> bool, q: T -> bool)
    requires forall i :: 0 <= i < |s| && p(s[i]) ==> q(s[i])
    ensures Count(s, p) <= Count(s, q)
  {
    if s != [] {
      CountWeaken(s[1..], p, q);
    }
  }

  /** Two predicates that agree on every member count the same. */
  lemma CountSame<T>(s: seq<T>, p: T -> bool, q: T -> bool)
    requires forall i :: 0 <= i < |s| ==> p(s[i]) == q(s[i])
    ensures Count(s, p) == Count(s, q)
  {
    CountWeaken(s, p, q);
    CountWeaken(s, q, p);
  }

  /** Where each member of `s` that counts has a counterpart in `t` that counts, `s` counts no more, and as much only if
      there is no counterpart the other way without one. */
  lemma {:induction false} CountPointwise<T>(s: seq<T>, t: seq<T>, p: T -> bool)
    requires |s| == |t| && forall i :: 0 <= i < |s| && p(s[i]) ==> p(t[i])
    ensures Count(s, p) <= Count(t, p)
    ensures Count(s, p) == Count(t, p) <==> forall i :: 0 <= i < |s| && p(t[i]) ==> p(s[i])
  {
    if s != [] {
      CountPointwise(s[1..], t[1..], p);
      if forall i :: 0 <= i < |s[1..]| && p(t[1..][i]) ==> p(s[1..][i]) {
        assert forall i :: 0 < i < |s| ==> s[i] == s[1..][i - 1] && t[i] == t[1..][i - 1];
      } else {
        var i :| 0 <= i < |s[1..]| && p(t[1..][i]) && !p(s[1..][i]);
        assert p(t[i + 1]) && !p(s[i + 1]);
      }
    }
  }
}
