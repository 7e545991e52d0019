/** Byte strings, as Go sees them: a character of a `string` below stands for one byte. */
module Text {

  datatype Option<T> = None | Some(value: T)

  predicate HasPrefix(s: string, prefix: string) {
    prefix <= s
  }

  predicate HasSuffix(s: string, suffix: string) {
    |suffix| <= |s| && s[|s| - |suffix|..] == suffix
  }

  /** The first position of `c`, or -1. */
  function IndexByte(s: string, c: char): (k: int)
    ensures -1 <= k < |s|
  {
    if s == "" then -1
    else if s[0] == c then 0
    else
      var k := IndexByte(s[1..], c);
      if k < 0 then -1 else k + 1
  }

  lemma {:induction false} IndexByteFinds(s: string, c: char)
    ensures IndexByte(s, c) < 0 <==> c !in s
    ensures var k := IndexByte(s, c); k >= 0 ==> s[k] == c && c !in s[..k]
  {
    if s != "" && s[0] != c {
      IndexByteFinds(s[1..], c);
      var k := IndexByte(s[1..], c);
      assert s == [s[0]] + s[1..] && (k >= 0 ==> s[..k + 1] == [s[0]] + s[1..][..k]);
    }
  }

  /** The first occurrence of a separator is found where everything before it is free of it. */
  lemma IndexOfFirst(a: string, c: char, b: string)
    requires c !in a
    ensures IndexByte(a + [c] + b, c) == |a|
  {
    var s := a + [c] + b;
    IndexByteFinds(s, c);
    assert forall j :: 0 <= j < |a| ==> s[j] == a[j];
    assert forall j :: |a| < j <= |s| ==> s[..j][|a|] == c;
  }

  /** The pieces of `s` between separators; a string without one is a single piece. */
  function Split(s: string, c: char): (parts: seq<string>)
    ensures parts != []
    decreases |s|
  {
    var k := IndexByte(s, c);
    if k < 0 then [s] else [s[..k]] + Split(s[k + 1..], c)
  }

  /** No piece holds a separator, nor a byte that the whole does not hold. */
  lemma {:induction false} SplitParts(s: string, c: char)
    ensures forall part :: part in Split(s, c) ==> c !in part
    ensures forall part, b :: part in Split(s, c) && b in part ==> b in s
    decreases |s|
  {
    var k := IndexByte(s, c);
    IndexByteFinds(s, c);
    if k >= 0 {
      SplitParts(s[k + 1..], c);
      assert forall b :: b in s[k + 1..] ==> b in s;
    }
  }

  function Join(parts: seq<string>, c: char): string {
    if parts == [] then ""
    else if |parts| == 1 then parts[0]
    else parts[0] + [c] + Join(parts[1..], c)
  }

  lemma {:induction false} JoinSplit(s: string, c: char)
    ensures Join(Split(s, c), c) == s
    decreases |s|
  {
    var k := IndexByte(s, c);
    IndexByteFinds(s, c);
    if k >= 0 {
      JoinSplit(s[k + 1..], c);
      assert s == s[..k] + [c] + s[k + 1..];
      assert Split(s, c)[1..] == Split(s[k + 1..], c);
    }
  }

  lemma IndexIsFirst(s: string, c: char, k: nat)
    requires k < |s| && s[k] == c && c !in s[..k]
    ensures IndexByte(s, c) == k
  {
    IndexByteFinds(s, c);
    assert forall j :: 0 <= j < k ==> s[..k][j] == s[j];
    assert forall j :: k < j <= |s| ==> s[..j][k] == c;
  }

  lemma SplitNone(s: string, c: char)
    requires c !in s
    ensures Split(s, c) == [s]
  {
    IndexByteFinds(s, c);
  }

  lemma SplitFirst(s: string, c: char, k: nat)
    requires k < |s| && s[k] == c && c !in s[..k]
    ensures Split(s, c) == [s[..k]] + Split(s[k + 1..], c)
  {
    IndexIsFirst(s, c, k);
  }

  lemma SplitStep(a: string, c: char, b: string)
    requires c !in a
    ensures Split(a + [c] + b, c) == [a] + Split(b, c)
  {
    IndexOfFirst(a, c, b);
    assert (a + [c] + b)[..|a|] == a && (a + [c] + b)[|a| + 1..] == b;
  }

  lemma {:induction false} SplitJoin(parts: seq<string>, c: char)
    requires parts != [] && forall part :: part in parts ==> c !in part
    ensures Split(Join(parts, c), c) == parts
  {
    if |parts| == 1 {
      SplitNone(parts[0], c);
    } else {
      SplitJoin(parts[1..], c);
      SplitStep(parts[0], c, Join(parts[1..], c));
    }
  }

  lemma {:induction false} JoinConcat(x: seq<string>, y: seq<string>, c: char)
    requires x != [] && y != []
    ensures Join(x + y, c) == Join(x, c) + [c] + Join(y, c)
  {
    if |x| == 1 {
      assert (x + y)[1..] == y;
    } else {
      assert (x + y)[1..] == x[1..] + y;
      JoinConcat(x[1..], y, c);
      assert x[0] + [c] + (Join(x[1..], c) + [c] + Join(y, c)) == x[0] + [c] + Join(x[1..], c) + [c] + Join(y, c);
    }
  }

  /** Splitting two strings with a separator between them splits each of them. */
  lemma SplitConcat(a: string, c: char, b: string)
    ensures Split(a + [c] + b, c) == Split(a, c) + Split(b, c)
  {
    JoinSplit(a, c);
    JoinSplit(b, c);
    JoinConcat(Split(a, c), Split(b, c), c);
    SplitParts(a, c);
    SplitParts(b, c);
    SplitJoin(Split(a, c) + Split(b, c), c);
  }

  /** Each segment after a slash of its own. */
  function Slashed(segments: seq<string>): string {
    if segments == [] then "" else "/" + segments[0] + Slashed(segments[1..])
  }

  lemma {:induction false} SlashedConcat(a: seq<string>, b: seq<string>)
    ensures Slashed(a + b) == Slashed(a) + Slashed(b)
  {
    if a == [] {
      assert a + b == b;
    } else {
      assert (a + b)[1..] == a[1..] + b;
      SlashedConcat(a[1..], b);
    }
  }

  lemma {:induction false} SlashedJoin(segments: seq<string>)
    requires segments != []
    ensures Slashed(segments) == "/" + Join(segments, '/')
  {
    if |segments| > 1 {
      SlashedJoin(segments[1..]);
    } else {
      assert segments[1..] == [];
    }
  }

  lemma SlashedCons(segment: string, segments: seq<string>)
    ensures Slashed([segment] + segments) == "/" + segment + Slashed(segments)
  {
    assert ([segment] + segments)[1..] == segments;
  }
}
