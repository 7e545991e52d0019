/** UTF-8 well-formedness, section 4 of RFC 3629, and the cut that internal/gangway/json.go makes in a logged path. */
module Utf8 {

  type byte = b: int | 0 <= b < 256

  predicate IsTail(b: byte) {
    0x80 <= b <= 0xBF
  }

  /** utf8.RuneStart: the two top bits are not "10". */
  predicate RuneStart(b: byte): (r: bool)
    ensures r <==> !IsTail(b)
  {
    b / 64 != 2
  }

  /** How long the character at the front is: one of UTF8-1, UTF8-2, UTF8-3 and UTF8-4, or 0 if there is none. */
  function CharLength(s: seq<byte>): (n: nat)
    ensures n <= 4 && n <= |s|
  {
    if |s| >= 1 && s[0] <= 0x7F then 1
    else if |s| >= 2 && 0xC2 <= s[0] <= 0xDF && IsTail(s[1]) then 2
    else if |s| >= 3 && IsTail(s[2]) &&
            ((s[0] == 0xE0 && 0xA0 <= s[1] <= 0xBF) || (0xE1 <= s[0] <= 0xEC && IsTail(s[1])) ||
             (s[0] == 0xED && 0x80 <= s[1] <= 0x9F) || (0xEE <= s[0] <= 0xEF && IsTail(s[1]))) then 3
    else if |s| >= 4 && IsTail(s[2]) && IsTail(s[3]) &&
            ((s[0] == 0xF0 && 0x90 <= s[1] <= 0xBF) || (0xF1 <= s[0] <= 0xF3 && IsTail(s[1])) ||
             (s[0] == 0xF4 && 0x80 <= s[1] <= 0x8F)) then 4
    else 0
  }

  predicate Valid(s: seq<byte>) {
    s == [] || (CharLength(s) > 0 && Valid(s[CharLength(s)..]))
  }

  // ---------------------------------------------- well-formed is what encoding gives

  /** The code points that have an encoding: all but the surrogates. */
  type Scalar = c: int | 0 <= c < 0xD800 || 0xE000 <= c <= 0x10FFFF

  /** Section 3 of RFC 3629: six bits in each byte but the first. */
  function Encode(c: Scalar): seq<byte> {
    if c <= 0x7F then [c]
    else if c <= 0x7FF then [0xC0 + c / 64, 0x80 + c % 64]
    else if c <= 0xFFFF then [0xE0 + c / 64 / 64, 0x80 + c / 64 % 64, 0x80 + c % 64]
    else [0xF0 + c / 64 / 64 / 64, 0x80 + c / 64 / 64 % 64, 0x80 + c / 64 % 64, 0x80 + c % 64]
  }

  function EncodeAll(text: seq<Scalar>): seq<byte> {
    if text == [] then [] else Encode(text[0]) + EncodeAll(text[1..])
  }

  lemma EncodeIsChar(c: Scalar, rest: seq<byte>)
    ensures CharLength(Encode(c) + rest) == |Encode(c)|
  {
    var e, s := Encode(c), Encode(c) + rest;
    assert forall i :: 0 <= i < |e| ==> s[i] == e[i];
  }

  /** What a code point is when the last six bits are a continuation byte. */
  function Shift(head: nat, last: byte): (c: nat)
    requires IsTail(last)
    ensures c / 64 == head && c % 64 == last - 0x80
  {
    head * 64 + (last - 0x80)
  }

  lemma TwoBytes(a: nat, b: byte) returns (c: Scalar)
    requires 2 <= a <= 0x1F && IsTail(b)
    ensures Encode(c) == [0xC0 + a, b]
  {
    c := Shift(a, b);
  }

  lemma ThreeBytes(a: nat, b: byte, d: byte) returns (c: Scalar)
    requires a <= 0xF && IsTail(b) && IsTail(d)
    requires var middle := Shift(a, b); middle >= 0x20 && !(0x360 <= middle <= 0x37F)
    ensures Encode(c) == [0xE0 + a, b, d]
  {
    var middle := Shift(a, b);
    c := Shift(middle, d);
  }

  lemma FourBytes(a: nat, b: byte, d: byte, e: byte) returns (c: Scalar)
    requires a <= 4 && IsTail(b) && IsTail(d) && IsTail(e) && 0x10 <= Shift(a, b) <= 0x10F
    ensures Encode(c) == [0xF0 + a, b, d, e]
  {
    var second := Shift(a, b);
    var third := Shift(second, d);
    assert 0x400 <= third <= 0x43FF;
    c := Shift(third, e);
  }

  /** Each character is the encoding of a code point. */
  lemma CharIsEncoded(s: seq<byte>) returns (c: Scalar)
    requires CharLength(s) > 0
    ensures Encode(c) == s[..CharLength(s)]
  {
    if CharLength(s) == 1 {
      c := s[0];
    } else if CharLength(s) == 2 {
      c := TwoBytes(s[0] - 0xC0, s[1]);
    } else if CharLength(s) == 3 {
      c := ThreeBytes(s[0] - 0xE0, s[1], s[2]);
    } else {
      c := FourBytes(s[0] - 0xF0, s[1], s[2], s[3]);
    }
  }

  lemma {:induction false} EncodeAllIsValid(text: seq<Scalar>)
    ensures Valid(EncodeAll(text))
  {
    if text != [] {
      var e, rest := Encode(text[0]), EncodeAll(text[1..]);
      EncodeIsChar(text[0], rest);
      EncodeAllIsValid(text[1..]);
      assert (e + rest)[|e|..] == rest;
    }
  }

  lemma {:induction false} ValidIsEncoded(s: seq<byte>) returns (text: seq<Scalar>)
    requires Valid(s)
    ensures EncodeAll(text) == s
    decreases |s|
  {
    if s == [] {
      text := [];
    } else {
      var n := CharLength(s);
      var c := CharIsEncoded(s);
      var rest := ValidIsEncoded(s[n..]);
      text := [c] + rest;
      assert text[1..] == rest && s == s[..n] + s[n..];
    }
  }

  /** Valid are exactly the encodings of sequences of code points. */
  lemma ValidIff(s: seq<byte>)
    ensures Valid(s) <==> exists text :: s == EncodeAll(text)
  {
    if Valid(s) {
      var text := ValidIsEncoded(s);
      assert s == EncodeAll(text);
    }
    forall text | s == EncodeAll(text)
      ensures Valid(s)
    {
      EncodeAllIsValid(text);
    }
  }

  // ------------------------------------------------------------------ cutting text

  lemma CharShape(s: seq<byte>)
    requires CharLength(s) > 0
    ensures RuneStart(s[0]) && forall i :: 1 <= i < CharLength(s) ==> !RuneStart(s[i])
  {
  }

  /** Only the bytes of a character decide that it is one. */
  lemma CharIsLocal(s: seq<byte>, t: seq<byte>)
    requires var n := CharLength(s); 0 < n <= |t| && forall i :: 0 <= i < n ==> s[i] == t[i]
    ensures CharLength(t) == CharLength(s)
  {
  }

  /** In valid text, what precedes a position that can start a character is valid by itself. */
  lemma {:induction false} PrefixIsValid(s: seq<byte>, cut: nat)
    requires Valid(s) && cut <= |s| && (cut < |s| ==> RuneStart(s[cut]))
    ensures Valid(s[..cut])
    decreases |s|
  {
    if 0 < cut {
      var n := CharLength(s);
      CharShape(s);
      CharIsLocal(s, s[..cut]);
      PrefixIsValid(s[n..], cut - n);
      assert s[..cut][n..] == s[n..][..cut - n];
    }
  }

  /** In valid text, no four bytes in a row are all continuation bytes. */
  lemma {:induction false} StartIsNear(s: seq<byte>, i: nat) returns (j: nat)
    requires Valid(s) && i < |s|
    ensures j <= i < j + 4 && RuneStart(s[j])
    decreases |s|
  {
    var n := CharLength(s);
    CharShape(s);
    if i < n {
      return 0;
    }
    j := StartIsNear(s[n..], i - n);
    j := j + n;
  }

  const MAX_LOGGED_PATH_BYTES := 256

  /** Three full stops. */
  const ELLIPSIS: seq<byte> := [0x2E, 0x2E, 0x2E]

  /** Where a long path is cut: the last position within the bound that can start a character, or 0. */
  ghost predicate IsCut(path: seq<byte>, cut: nat)
    requires |path| > MAX_LOGGED_PATH_BYTES
  {
    cut <= MAX_LOGGED_PATH_BYTES && (cut == 0 || RuneStart(path[cut])) &&
    forall i :: cut < i <= MAX_LOGGED_PATH_BYTES ==> !RuneStart(path[i])
  }

  lemma CutIsUnique(path: seq<byte>, a: nat, b: nat)
    requires |path| > MAX_LOGGED_PATH_BYTES && IsCut(path, a) && IsCut(path, b)
    ensures a == b
  {
  }

  /** A cut in valid text loses at most three of the bytes that fit, and leaves valid text. */
  lemma CutOfValidText(path: seq<byte>, cut: nat)
    requires |path| > MAX_LOGGED_PATH_BYTES && Valid(path) && IsCut(path, cut)
    ensures MAX_LOGGED_PATH_BYTES - 3 <= cut <= MAX_LOGGED_PATH_BYTES && Valid(path[..cut])
  {
    var start := StartIsNear(path, MAX_LOGGED_PATH_BYTES);
    PrefixIsValid(path, cut);
  }

  lemma {:induction false} ValidConcat(a: seq<byte>, b: seq<byte>)
    requires Valid(a) && Valid(b)
    ensures Valid(a + b)
    decreases |a|
  {
    if a == [] {
      assert a + b == b;
    } else {
      var n := CharLength(a);
      ValidConcat(a[n..], b);
      CharIsLocal(a, a + b);
      DropConcat(a, b, n);
    }
  }

  lemma DropConcat(a: seq<byte>, b: seq<byte>, n: nat)
    requires n <= |a|
    ensures (a + b)[n..] == a[n..] + b
  {
  }

  lemma EllipsisIsValid()
    ensures Valid(ELLIPSIS)
  {
    assert ELLIPSIS[1..][1..][1..] == [];
  }

  /** On any bytes the result is the path, or a prefix of at most 256 bytes and an ellipsis; on valid text it is valid
      and the prefix has at least 253 bytes. */
  method PathForLog(path: seq<byte>) returns (shown: seq<byte>)
    ensures |path| <= 256 ==> shown == path
    ensures |path| > 256 ==> exists cut :: 0 <= cut <= 256 && IsCut(path, cut) && shown == path[..cut] + ELLIPSIS
    ensures Valid(path) ==> Valid(shown) && (|path| > 256 ==> |shown| >= 253 + |ELLIPSIS|)
  {
    if |path| <= MAX_LOGGED_PATH_BYTES {
      return path;
    }
    var cut := MAX_LOGGED_PATH_BYTES;
    while cut > 0 && !RuneStart(path[cut])
      invariant 0 <= cut <= MAX_LOGGED_PATH_BYTES
      invariant forall i :: cut < i <= MAX_LOGGED_PATH_BYTES ==> !RuneStart(path[i])
    {
      cut := cut - 1;
    }
    shown := path[..cut] + ELLIPSIS;
    if Valid(path) {
      CutOfValidText(path, cut);
      EllipsisIsValid();
      ValidConcat(path[..cut], ELLIPSIS);
    }
  }
}
