/** Accepted request targets are already in the normal form of RFC 3986, so that what Classify verified is what an
    upstream URL built from it means. */
module RequestTarget {
  import opened Text
  import opened RequestGrammar

  /** pchar of section 3.3 of RFC 3986, percent-encoded triplets left aside. */
  predicate IsLiteralPchar(c: char) {
    // unreserved
    'a' <= c <= 'z' || 'A' <= c <= 'Z' || '0' <= c <= '9' || c == '-' || c == '.' || c == '_' || c == '~' ||
    // sub-delims
    c == '!' || c == '$' || c == '&' || c == '\'' || c == '(' || c == ')' || c == '*' || c == '+' || c == ',' ||
    c == ';' || c == '=' ||
    c == ':' || c == '@'
  }

  ghost predicate IsPlainSegment(segment: string) {
    GoodSegment(segment) && '/' !in segment && forall c :: c in segment ==> IsLiteralPchar(c)
  }

  ghost predicate AllPlain(segments: seq<string>) {
    forall segment :: segment in segments ==> IsPlainSegment(segment)
  }

  /** path-absolute of section 3.3 of RFC 3986, with no empty and no dot segment and no percent-encoding. */
  ghost predicate IsPlainPath(path: string, segments: seq<string>) {
    segments != [] && path == Slashed(segments) && AllPlain(segments)
  }

  // -------------------------------------------- remove_dot_segments (section 5.2.4)

  function DropLastSegment(output: string): (r: string)
    ensures |r| <= |output|
  {
    if output == "" then ""
    else if output[|output| - 1] == '/' then output[..|output| - 1]
    else DropLastSegment(output[..|output| - 1])
  }

  /** Where the first segment of the input, with its initial slash if it has one, ends. */
  function FirstSegmentEnd(input: string): (end: nat)
    requires input != ""
    ensures 0 < end <= |input|
  {
    var k := IndexByte(input[1..], '/');
    if k < 0 then |input| else k + 1
  }

  function RemoveDots(input: string, output: string): string
    decreases |input|
  {
    if input == "" then output
    else if HasPrefix(input, "../") then RemoveDots(input[3..], output)
    else if HasPrefix(input, "./") then RemoveDots(input[2..], output)
    else if HasPrefix(input, "/./") then RemoveDots(input[2..], output)
    else if input == "/." then RemoveDots("/", output)
    else if HasPrefix(input, "/../") then RemoveDots(input[3..], DropLastSegment(output))
    else if input == "/.." then RemoveDots("/", DropLastSegment(output))
    else if input == "." || input == ".." then output
    else
      var end := FirstSegmentEnd(input);
      RemoveDots(input[end..], output + input[..end])
  }

  function RemoveDotSegments(path: string): string {
    RemoveDots(path, "")
  }

  predicate StartsWithDots(input: string) {
    HasPrefix(input, "../") || HasPrefix(input, "./") || HasPrefix(input, "/./") || input == "/." ||
    HasPrefix(input, "/../") || input == "/.." || input == "." || input == ".."
  }

  lemma PlainFirstSegment(segment: string, rest: string)
    requires GoodSegment(segment) && '/' !in segment && (rest == "" || rest[0] == '/')
    ensures var input := "/" + segment + rest;
            !StartsWithDots(input) && FirstSegmentEnd(input) == 1 + |segment|
  {
    var input := "/" + segment + rest;
    assert input[0] == '/' && input[1] == segment[0] && segment[0] in segment;
    if |segment| == 1 {
      assert segment == [segment[0]];
    } else {
      assert input[2] == segment[1] && segment[1] in segment;
      if |segment| == 2 {
        assert segment == [segment[0], segment[1]];
      } else {
        assert input[3] == segment[2] && segment[2] in segment;
      }
    }
    assert input[1..] == segment + rest;
    if rest == "" {
      assert segment + rest == segment;
      IndexByteFinds(segment, '/');
    } else {
      IndexOfFirst(segment, '/', rest[1..]);
      assert segment + rest == segment + ['/'] + rest[1..];
    }
  }

  lemma MoveFirstSegment(segment: string, rest: string, output: string)
    requires GoodSegment(segment) && '/' !in segment && (rest == "" || rest[0] == '/')
    ensures RemoveDots("/" + segment + rest, output) == RemoveDots(rest, output + ("/" + segment))
  {
    var first, input := "/" + segment, "/" + segment + rest;
    PlainFirstSegment(segment, rest);
    assert input[..|first|] == first && input[|first|..] == rest;
  }

  ghost predicate Undotted(segments: seq<string>) {
    forall segment :: segment in segments ==> GoodSegment(segment) && '/' !in segment
  }

  lemma UndottedParts(segments: seq<string>)
    requires segments != [] && Undotted(segments)
    ensures GoodSegment(segments[0]) && '/' !in segments[0] && Undotted(segments[1..])
  {
  }

  lemma Associate(a: string, b: string, c: string)
    ensures a + b + c == a + (b + c)
  {
  }

  lemma {:induction false} PlainSegmentsStay(segments: seq<string>, output: string)
    requires Undotted(segments)
    ensures RemoveDots(Slashed(segments), output) == output + Slashed(segments)
  {
    if segments == [] {
      assert output + "" == output;
    } else {
      UndottedParts(segments);
      var first, rest := "/" + segments[0], Slashed(segments[1..]);
      calc {
        RemoveDots(Slashed(segments), output);
        { MoveFirstSegment(segments[0], rest, output); }
        RemoveDots(rest, output + first);
        { PlainSegmentsStay(segments[1..], output + first); }
        output + first + rest;
        { Associate(output, first, rest); }
        output + Slashed(segments);
      }
    }
  }

  // What remove_dot_segments does to the others, so that it is known to do what it should.

  predicate IsSegment(segment: string) {
    segment != "" && '/' !in segment
  }

  ghost predicate AreSegments(segments: seq<string>) {
    forall segment :: segment in segments ==> IsSegment(segment)
  }

  /** "." goes, and ".." with the segment before it. */
  function Applied(segment: string, before: seq<string>): seq<string> {
    if segment == "." then before
    else if segment != ".." then before + [segment]
    else if before == [] then []
    else before[..|before| - 1]
  }

  function WithoutDots(segments: seq<string>, before: seq<string>): seq<string> {
    if segments == [] then before else WithoutDots(segments[1..], Applied(segments[0], before))
  }

  lemma SlashedOne(segment: string)
    ensures Slashed([segment]) == "/" + segment
  {
    SlashedCons(segment, []);
    assert [segment] + [] == [segment];
    assert "/" + segment + "" == "/" + segment;
  }

  lemma {:induction false} DropNone(output: string, segment: string)
    requires '/' !in segment
    ensures DropLastSegment(output + "/" + segment) == output
    decreases |segment|
  {
    var s := output + "/" + segment;
    if segment == "" {
      assert s[..|s| - 1] == output;
    } else {
      var shorter := segment[..|segment| - 1];
      assert s[|s| - 1] == segment[|segment| - 1] && segment[|segment| - 1] in segment;
      assert s[..|s| - 1] == output + "/" + shorter;
      DropNone(output, shorter);
    }
  }

  lemma DropsLast(before: seq<string>)
    requires AreSegments(before)
    ensures DropLastSegment(Slashed(before)) == Slashed(if before == [] then [] else before[..|before| - 1])
  {
    if before != [] {
      var front, last := before[..|before| - 1], before[|before| - 1];
      assert before == front + [last] && IsSegment(last);
      SlashedConcat(front, [last]);
      SlashedOne(last);
      Associate(Slashed(front), "/", last);
      DropNone(Slashed(front), last);
    }
  }

  lemma DotInput(rest: string, output: string)
    requires rest != "" && rest[0] == '/'
    ensures RemoveDots("/." + rest, output) == RemoveDots(rest, output)
    ensures RemoveDots("/.." + rest, output) == RemoveDots(rest, DropLastSegment(output))
  {
    var one, two := "/." + rest, "/.." + rest;
    assert one[2..] == rest && two[3..] == rest;
    assert one[0] == '/' && one[1] == '.' && one[2] == '/';
    assert two[0] == '/' && two[1] == '.' && two[2] == '.' && two[3] == '/';
  }

  lemma OneSegment(segment: string, rest: string, before: seq<string>)
    requires IsSegment(segment) && AreSegments(before) && rest != "" && rest[0] == '/'
    ensures RemoveDots("/" + segment + rest, Slashed(before)) == RemoveDots(rest, Slashed(Applied(segment, before)))
    ensures AreSegments(Applied(segment, before))
  {
    if segment == "." || segment == ".." {
      assert "/" + "." == "/." && "/" + ".." == "/..";
      DotInput(rest, Slashed(before));
      DropsLast(before);
    } else {
      MoveFirstSegment(segment, rest, Slashed(before));
      SlashedOne(segment);
      SlashedConcat(before, [segment]);
    }
  }

  lemma LastSegment(last: string, before: seq<string>)
    requires IsSegment(last) && GoodSegment(last)
    ensures RemoveDots(Slashed([last]), Slashed(before)) == Slashed(before + [last])
  {
    SlashedOne(last);
    SlashedConcat(before, [last]);
    assert "/" + last + "" == "/" + last;
    MoveFirstSegment(last, "", Slashed(before));
  }

  /** On segments of which the last is no dot segment, remove_dot_segments gives the segments that remain. */
  lemma {:induction false} DotSegmentsGo(segments: seq<string>, last: string, before: seq<string>)
    requires AreSegments(segments) && AreSegments(before) && IsSegment(last) && GoodSegment(last)
    ensures RemoveDots(Slashed(segments + [last]), Slashed(before)) == Slashed(WithoutDots(segments, before) + [last])
    decreases |segments|
  {
    if segments == [] {
      assert segments + [last] == [last];
      LastSegment(last, before);
    } else {
      var first, tail := segments[0], segments[1..];
      assert segments + [last] == [first] + (tail + [last]) && first in segments;
      SlashedCons(first, tail + [last]);
      SlashedJoin(tail + [last]);
      OneSegment(first, Slashed(tail + [last]), before);
      DotSegmentsGo(tail, last, Applied(first, before));
    }
  }

  // ------------------------------------------------- percent-encoding (section 2.1)

  const HEX_DIGITS := "0123456789ABCDEF"

  function HexValue(c: char): (v: nat) {
    if '0' <= c <= '9' then c as int - '0' as int
    else if 'a' <= c <= 'f' then c as int - 'a' as int + 10
    else if 'A' <= c <= 'F' then c as int - 'A' as int + 10
    else 0
  }

  predicate IsHex(c: char) {
    '0' <= c <= '9' || 'a' <= c <= 'f' || 'A' <= c <= 'F'
  }

  function PercentDecode(s: string): string {
    if s == "" then ""
    else if |s| >= 3 && s[0] == '%' && IsHex(s[1]) && IsHex(s[2]) then
      [(HexValue(s[1]) * 16 + HexValue(s[2])) as char] + PercentDecode(s[3..])
    else [s[0]] + PercentDecode(s[1..])
  }

  function EncodeByte(c: char): string {
    if c == '/' || IsLiteralPchar(c) then [c]
    else ['%', HEX_DIGITS[c as int / 16 % 16], HEX_DIGITS[c as int % 16]]
  }

  function PercentEncode(s: string): string {
    if s == "" then "" else EncodeByte(s[0]) + PercentEncode(s[1..])
  }

  lemma HexDigits(n: nat)
    requires n < 16
    ensures IsHex(HEX_DIGITS[n]) && HexValue(HEX_DIGITS[n]) == n
  {
  }

  lemma DecodeTriplet(high: nat, low: nat, rest: string)
    requires high < 16 && low < 16
    ensures PercentDecode(['%', HEX_DIGITS[high], HEX_DIGITS[low]] + rest)
         == [(high * 16 + low) as char] + PercentDecode(rest)
  {
    HexDigits(high);
    HexDigits(low);
    assert (['%', HEX_DIGITS[high], HEX_DIGITS[low]] + rest)[3..] == rest;
  }

  lemma DecodeByte(c: char, rest: string)
    requires c as int < 256
    ensures PercentDecode(EncodeByte(c) + rest) == [c] + PercentDecode(rest)
  {
    if c == '/' || IsLiteralPchar(c) {
      assert ([c] + rest)[1..] == rest;
    } else {
      var high, low := c as int / 16 % 16, c as int % 16;
      assert high * 16 + low == c as int;
      DecodeTriplet(high, low, rest);
    }
  }

  /** Decoding undoes encoding, of any bytes. */
  lemma {:induction false} DecodeOfEncode(s: string)
    requires forall c :: c in s ==> c as int < 256
    ensures PercentDecode(PercentEncode(s)) == s
  {
    if s != "" {
      assert s[0] in s && forall c :: c in s[1..] ==> c in s;
      DecodeOfEncode(s[1..]);
      DecodeByte(s[0], PercentEncode(s[1..]));
    }
  }

  lemma {:induction false} NothingToEncode(s: string)
    requires OnlyPathBytes(s)
    ensures PercentEncode(s) == s
  {
    if s != "" {
      assert IsPathByte(s[0]);
      NothingToEncode(s[1..]);
    }
  }

  lemma {:induction false} NothingToDecode(s: string)
    requires OnlyPathBytes(s)
    ensures PercentDecode(s) == s
  {
    if s != "" {
      assert IsPathByte(s[0]);
      NothingToDecode(s[1..]);
    }
  }

  // ---------------------------------------------------------------- the theorem

  function SegmentsOf(t: Target): seq<string> {
    match t
    case Ping => ["_ping"]
    case Container(v, id) => ["v" + PrintVersion(v)] + (["containers"] + [id] + ["json"])
    case Image(v, segments) => ["v" + PrintVersion(v)] + (["images"] + segments + ["json"])
  }

  /** A collection name, what was inspected in it, and the final "json", as segments and as Classify's literals. */
  lemma InspectIsSlashed(collection: string, prefix: string, segments: seq<string>)
    requires segments != [] && prefix == "/" + collection + "/"
    ensures Slashed([collection] + segments + ["json"]) == prefix + Join(segments, '/') + INSPECT_SUFFIX
  {
    var middle := Join(segments, '/');
    SlashedCons(collection, segments);
    SlashedJoin(segments);
    SlashedOne("json");
    SlashedConcat([collection] + segments, ["json"]);
    assert "/" + collection + ("/" + middle) == prefix + middle;
  }

  lemma VersionedIsSlashed(version: string, segments: seq<string>)
    ensures Slashed(["v" + version] + segments) == VERSION_PREFIX + version + Slashed(segments)
  {
    SlashedCons("v" + version, segments);
    assert "/" + ("v" + version) == VERSION_PREFIX + version;
  }

  lemma PrintIsSlashed(t: Target)
    requires InGrammar(t)
    ensures Print(t) == Slashed(SegmentsOf(t))
  {
    match t
    case Ping =>
      SlashedOne("_ping");
    case Container(v, id) =>
      InspectIsSlashed("containers", CONTAINER_PREFIX, [id]);
      VersionedIsSlashed(PrintVersion(v), ["containers"] + [id] + ["json"]);
    case Image(v, segments) =>
      InspectIsSlashed("images", IMAGE_PREFIX, segments);
      VersionedIsSlashed(PrintVersion(v), ["images"] + segments + ["json"]);
  }

  lemma PlainIfPathBytes(segment: string)
    requires OnlyPathBytes(segment) && '/' !in segment && GoodSegment(segment)
    ensures IsPlainSegment(segment)
  {
    assert forall c :: c in segment ==> IsPathByte(c);
  }

  lemma VersionSegmentIsPlain(v: Version)
    requires IsVersion(v)
    ensures IsPlainSegment("v" + PrintVersion(v))
  {
    VersionBytes(v);
    VersionInverse(v);
    var head := "v" + PrintVersion(v);
    assert head[0] == 'v';
    PlainIfPathBytes(head);
  }

  lemma ContainerIDIsPlain(id: string)
    requires ValidContainerID(id)
    ensures IsPlainSegment(id)
  {
    assert forall c :: c in id ==> IsHexDigit(c);
    PlainIfPathBytes(id);
  }

  lemma ReferenceIsPlain(segments: seq<string>)
    requires IsReference(segments)
    ensures AllPlain(segments)
  {
  }

  lemma LiteralsArePlain()
    ensures IsPlainSegment("_ping") && IsPlainSegment("json")
    ensures IsPlainSegment("containers") && IsPlainSegment("images")
  {
    PlainIfPathBytes("_ping");
    PlainIfPathBytes("json");
    PlainIfPathBytes("containers");
    PlainIfPathBytes("images");
  }

  lemma AllPlainAround(first: string, second: string, middle: seq<string>, last: string)
    requires IsPlainSegment(first) && IsPlainSegment(second) && AllPlain(middle) && IsPlainSegment(last)
    ensures AllPlain([first] + ([second] + middle + [last]))
  {
  }

  lemma SegmentsArePlain(t: Target)
    requires InGrammar(t)
    ensures AllPlain(SegmentsOf(t))
  {
    LiteralsArePlain();
    match t
    case Ping =>
    case Container(v, id) =>
      VersionSegmentIsPlain(v);
      ContainerIDIsPlain(id);
      AllPlainAround("v" + PrintVersion(v), "containers", [id], "json");
    case Image(v, segments) =>
      VersionSegmentIsPlain(v);
      ReferenceIsPlain(segments);
      AllPlainAround("v" + PrintVersion(v), "images", segments, "json");
  }

  ghost predicate IsNormal(path: string) {
    RemoveDotSegments(path) == path && PercentEncode(path) == path && PercentDecode(path) == path
  }

  lemma TargetIsNormal(t: Target)
    requires InGrammar(t)
    ensures IsPlainPath(Print(t), SegmentsOf(t)) && IsNormal(Print(t))
  {
    PrintIsSlashed(t);
    SegmentsArePlain(t);
    PlainSegmentsStay(SegmentsOf(t), "");
    assert "" + Print(t) == Print(t);
    GrammarBytes(t);
    NothingToEncode(Print(t));
    NothingToDecode(Print(t));
  }

  /** What Classify accepts is a path-absolute made of plain segments, is unchanged by remove_dot_segments, and is
      unchanged by percent-encoding and by percent-decoding. */
  lemma AcceptedTargetsAreCanonical(r: Request) returns (segments: seq<string>)
    requires Classify(Some(r)).Some?
    ensures var path := Classify(Some(r)).value.path;
            path == r.requestURI && IsPlainPath(path, segments) && IsNormal(path)
  {
    var route := Classify(Some(r)).value;
    AcceptedIff(r, route);
    var t :| InGrammar(t) && r.requestURI == Print(t) == route.path;
    segments := SegmentsOf(t);
    TargetIsNormal(t);
  }
}
