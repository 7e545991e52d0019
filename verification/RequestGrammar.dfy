/** The request recogniser of internal/gangway/allowlist.go and internal/gangway/validate.go, and the grammar it
    accepts. */
module RequestGrammar {
  import opened Text

  const PING_PATH := "/_ping"
  const CONTAINER_PREFIX := "/containers/"
  const IMAGE_PREFIX := "/images/"
  const INSPECT_SUFFIX := "/json"
  const VERSION_PREFIX := "/v"
  const CONTAINER_ID_LENGTH := 64
  const MAX_IMAGE_REFERENCE_BYTES := 1024
  const MIN_API_VERSION_LENGTH := 3
  const MAX_API_VERSION_LENGTH := 16

  datatype URL = URL(path: string, rawPath: string, rawQuery: string, forceQuery: bool)

  datatype Request = Request(verb: string, url: Option<URL>, requestURI: string, contentLength: int,
                             transferEncoding: seq<string>)

  datatype RouteKind = PingRoute | ContainerInspect | ImageInspect

  datatype Route = Route(kind: RouteKind, path: string)

  // ----------------------------------------------------------------- validators

  predicate IsDigit(c: char) {
    '0' <= c <= '9'
  }

  predicate IsHexDigit(c: char) {
    IsDigit(c) || 'a' <= c <= 'f'
  }

  predicate IsImageReferenceByte(c: char) {
    'a' <= c <= 'z' || 'A' <= c <= 'Z' || IsDigit(c) ||
    c == '.' || c == '_' || c == ':' || c == '@' || c == '+' || c == '-'
  }

  /** A byte that may stand in an accepted path. */
  predicate IsPathByte(c: char) {
    c == '/' || IsImageReferenceByte(c)
  }

  predicate IsDottedPair(version: string, dot: int) {
    0 < dot < |version| - 1 && version[dot] == '.' &&
    forall i :: 0 <= i < |version| && i != dot ==> IsDigit(version[i])
  }

  predicate ValidAPIVersion(version: string) {
    MIN_API_VERSION_LENGTH <= |version| <= MAX_API_VERSION_LENGTH &&
    exists dot :: 0 <= dot < |version| && IsDottedPair(version, dot)
  }

  predicate ValidContainerID(id: string) {
    |id| == CONTAINER_ID_LENGTH && forall c :: c in id ==> IsHexDigit(c)
  }

  predicate GoodSegment(segment: string) {
    segment != "" && segment != "." && segment != ".."
  }

  predicate AllGood(segments: seq<string>) {
    forall segment :: segment in segments ==> GoodSegment(segment)
  }

  predicate ValidImageReference(ref: string) {
    0 < |ref| <= MAX_IMAGE_REFERENCE_BYTES &&
    (forall c :: c in ref ==> IsPathByte(c)) &&
    AllGood(Split(ref, '/'))
  }

  lemma DotIsFirst(version: string, dot: int)
    requires IsDottedPair(version, dot)
    ensures IndexByte(version, '.') == dot
  {
    IndexByteFinds(version, '.');
    assert forall i :: 0 <= i < |version| && i != dot ==> version[i] != '.';
    assert version[dot] in version;
  }

  method CheckAPIVersion(version: string) returns (ok: bool)
    ensures ok <==> ValidAPIVersion(version)
  {
    if |version| < MIN_API_VERSION_LENGTH || |version| > MAX_API_VERSION_LENGTH {
      return false;
    }
    var dot := IndexByte(version, '.');
    IndexByteFinds(version, '.');
    forall d | IsDottedPair(version, d)
      ensures d == dot
    {
      DotIsFirst(version, d);
    }
    if dot <= 0 || dot == |version| - 1 || IndexByte(version[dot + 1..], '.') >= 0 {
      if dot > 0 && dot < |version| - 1 {
        var second := IndexByte(version[dot + 1..], '.');
        IndexByteFinds(version[dot + 1..], '.');
        assert version[dot + 1 + second] == '.';
        assert !IsDottedPair(version, dot);
      }
      return false;
    }
    for i := 0 to |version|
      invariant forall j :: 0 <= j < i && j != dot ==> IsDigit(version[j])
    {
      if i == dot {
        continue;
      }
      if !IsDigit(version[i]) {
        return false;
      }
    }
    assert IsDottedPair(version, dot);
    return true;
  }

  method CheckContainerID(id: string) returns (ok: bool)
    ensures ok <==> ValidContainerID(id)
  {
    if |id| != CONTAINER_ID_LENGTH {
      return false;
    }
    for i := 0 to |id|
      invariant forall c :: c in id[..i] ==> IsHexDigit(c)
    {
      if !IsHexDigit(id[i]) {
        return false;
      }
    }
    assert id[..|id|] == id;
    return true;
  }

  /** Whether what is left of a reference is good, once the scan has found where its first piece ends. */
  lemma GoodAt(tail: string, k: nat)
    requires k <= |tail| && '/' !in tail[..k] && (k == |tail| || tail[k] == '/')
    ensures AllGood(Split(tail, '/')) <==>
            GoodSegment(tail[..k]) && (k < |tail| ==> AllGood(Split(tail[k + 1..], '/')))
  {
    if k < |tail| {
      SplitFirst(tail, '/', k);
      AllGoodCons(tail[..k], Split(tail[k + 1..], '/'));
    } else {
      assert tail[..k] == tail;
      SplitNone(tail, '/');
    }
  }

  lemma AllGoodCons(segment: string, rest: seq<string>)
    ensures AllGood([segment] + rest) <==> GoodSegment(segment) && AllGood(rest)
  {
    assert segment in [segment] + rest;
    assert forall s :: s in rest ==> s in [segment] + rest;
  }

  /** What the scan of a reference knows at position `i`, inside the segment that began at `start`. */
  ghost predicate Scanned(ref: string, start: nat, i: nat) {
    && start <= i <= |ref| + 1 && BytesScanned(ref, i)
    && if start > |ref| then AllGood(Split(ref, '/'))
       else i <= |ref| && '/' !in ref[start..i] && RestDecides(ref, start)
  }

  ghost predicate BytesScanned(ref: string, i: nat) {
    forall j :: 0 <= j < i && j < |ref| ==> IsPathByte(ref[j])
  }

  ghost predicate RestDecides(ref: string, start: nat)
    requires start <= |ref|
  {
    AllGood(Split(ref, '/')) <==> AllGood(Split(ref[start..], '/'))
  }

  lemma ScanByte(ref: string, start: nat, i: nat)
    requires Scanned(ref, start, i) && i < |ref| && IsImageReferenceByte(ref[i])
    ensures Scanned(ref, start, i + 1)
  {
    NextByte(ref, i);
    ExtendsWithout(ref, start, i);
  }

  lemma ExtendsWithout(ref: string, start: nat, i: nat)
    requires start <= i < |ref| && '/' !in ref[start..i] && ref[i] != '/'
    ensures '/' !in ref[start..i + 1]
  {
    assert ref[start..i + 1] == ref[start..i] + [ref[i]];
  }

  lemma GoodFrom(ref: string, start: nat, i: nat)
    requires start <= i <= |ref| && '/' !in ref[start..i] && (i == |ref| || ref[i] == '/')
    ensures AllGood(Split(ref[start..], '/')) <==>
            GoodSegment(ref[start..i]) && (i < |ref| ==> AllGood(Split(ref[i + 1..], '/')))
  {
    var tail, k := ref[start..], i - start;
    assert tail[..k] == ref[start..i];
    if k < |tail| {
      assert tail[k + 1..] == ref[i + 1..];
    }
    GoodAt(tail, k);
  }

  /** At a separator, after a good segment, the scan goes on with the next one. */
  lemma ScanPast(ref: string, start: nat, i: nat)
    requires Scanned(ref, start, i) && i < |ref| && ref[i] == '/' && RestDecides(ref, i + 1)
    ensures Scanned(ref, i + 1, i + 1)
  {
    NextByte(ref, i);
    assert ref[i + 1..i + 1] == "";
  }

  lemma NextByte(ref: string, i: nat)
    requires BytesScanned(ref, i) && i < |ref| && IsPathByte(ref[i])
    ensures BytesScanned(ref, i + 1)
  {
  }

  lemma ScanSegment(ref: string, start: nat, i: nat)
    requires Scanned(ref, start, i) && i <= |ref| && (i == |ref| || ref[i] == '/')
    ensures if GoodSegment(ref[start..i]) then Scanned(ref, i + 1, i + 1) else !AllGood(Split(ref, '/'))
  {
    GoodFrom(ref, start, i);
    if i < |ref| && GoodSegment(ref[start..i]) {
      ScanPast(ref, start, i);
    }
  }

  lemma ScanStarts(ref: string)
    ensures Scanned(ref, 0, 0)
  {
    assert ref[0..] == ref && ref[0..0] == "";
  }

  lemma ScanMeetsByte(ref: string, start: nat, i: nat)
    requires Scanned(ref, start, i) && i < |ref| && !IsPathByte(ref[i])
    ensures !ValidImageReference(ref)
  {
    assert ref[i] in ref;
  }

  lemma ScanMeetsSegment(ref: string, start: nat, i: nat)
    requires Scanned(ref, start, i) && i <= |ref| && (i == |ref| || ref[i] == '/') && !GoodSegment(ref[start..i])
    ensures !ValidImageReference(ref)
  {
    ScanSegment(ref, start, i);
  }

  lemma ScanEnds(ref: string, start: nat)
    requires Scanned(ref, start, |ref| + 1) && 0 < |ref| <= MAX_IMAGE_REFERENCE_BYTES
    ensures ValidImageReference(ref)
  {
  }

  method CheckImageReference(ref: string) returns (ok: bool)
    ensures ok <==> ValidImageReference(ref)
  {
    if |ref| == 0 || |ref| > MAX_IMAGE_REFERENCE_BYTES {
      return false;
    }
    var start, i := 0, 0;
    ScanStarts(ref);
    while i <= |ref|
      invariant Scanned(ref, start, i)
    {
      if i < |ref| && ref[i] != '/' {
        if !IsImageReferenceByte(ref[i]) {
          ScanMeetsByte(ref, start, i);
          return false;
        }
        ScanByte(ref, start, i);
      } else {
        var segment := ref[start..i];
        if segment == "" || segment == "." || segment == ".." {
          ScanMeetsSegment(ref, start, i);
          return false;
        }
        ScanSegment(ref, start, i);
        start := i + 1;
      }
      i := i + 1;
    }
    ScanEnds(ref, start);
    assert ValidImageReference(ref);
    return true;
  }

  // ------------------------------------------------------------------- Classify

  /** The part of `s` between `prefix` and `suffix`, which must not overlap. */
  function TrimAround(s: string, prefix: string, suffix: string): Option<string> {
    if !HasPrefix(s, prefix) then None
    else
      var rest := s[|prefix|..];
      if !HasSuffix(rest, suffix) then None else Some(rest[..|rest| - |suffix|])
  }

  /** What follows a leading "/vX.Y". */
  function TrimAPIVersion(path: string): Option<string> {
    if !HasPrefix(path, VERSION_PREFIX) then None
    else
      var end := IndexByte(path[|VERSION_PREFIX|..], '/');
      if end < 0 then None
      else if !ValidAPIVersion(path[|VERSION_PREFIX|..][..end]) then None
      else Some(path[|VERSION_PREFIX|..][end..])
  }

  function ClassifyInspect(rest: string): Option<RouteKind> {
    match TrimAround(rest, CONTAINER_PREFIX, INSPECT_SUFFIX)
    case Some(id) => if ValidContainerID(id) then Some(ContainerInspect) else None
    case None =>
      match TrimAround(rest, IMAGE_PREFIX, INSPECT_SUFFIX)
      case Some(ref) => if ValidImageReference(ref) then Some(ImageInspect) else None
      case None => None
  }

  function ClassifyPath(verb: string, path: string): Option<Route> {
    if path == PING_PATH then
      if verb == "HEAD" || verb == "GET" then Some(Route(PingRoute, path)) else None
    else if verb != "GET" then None
    else
      match TrimAPIVersion(path)
      case None => None
      case Some(rest) =>
        match ClassifyInspect(rest)
        case None => None
        case Some(kind) => Some(Route(kind, path))
  }

  /** The request has no body, no query and no second spelling of its path. */
  predicate IsPlain(r: Request) {
    r.url.Some? && r.contentLength == 0 && r.transferEncoding == [] &&
    r.url.value.rawQuery == "" && !r.url.value.forceQuery && r.url.value.rawPath == "" &&
    r.url.value.path != "" && r.requestURI == r.url.value.path && HasPrefix(r.url.value.path, "/")
  }

  predicate HasSuspectBytes(path: string) {
    '%' in path || '\\' in path || '\0' in path || '\r' in path || '\n' in path ||
    exists i :: 0 <= i < |path| - 1 && path[i] == path[i + 1] == '/'
  }

  function Classify(req: Option<Request>): Option<Route> {
    if req.None? || !IsPlain(req.value) then None
    else if HasSuspectBytes(req.value.url.value.path) then None
    else ClassifyPath(req.value.verb, req.value.url.value.path)
  }

  // ---------------------------------------------------------------- the grammar

  datatype Version = Version(major: string, minor: string)

  datatype Target =
    | Ping
    | Container(version: Version, id: string)
    | Image(version: Version, segments: seq<string>)
  {
    function Kind(): RouteKind {
      match this
      case Ping => PingRoute
      case Container(_, _) => ContainerInspect
      case Image(_, _) => ImageInspect
    }
  }

  ghost predicate IsNumber(s: string) {
    s != "" && forall c :: c in s ==> IsDigit(c)
  }

  ghost predicate IsVersion(v: Version) {
    IsNumber(v.major) && IsNumber(v.minor) && |v.major| + 1 + |v.minor| <= MAX_API_VERSION_LENGTH
  }

  ghost predicate IsReference(segments: seq<string>) {
    segments != [] && |Join(segments, '/')| <= MAX_IMAGE_REFERENCE_BYTES && AllGood(segments) &&
    forall segment, c :: segment in segments && c in segment ==> IsImageReferenceByte(c)
  }

  /** target = "/_ping" / version "/containers/" 64HEX "/json" / version "/images/" reference "/json" */
  ghost predicate InGrammar(t: Target) {
    match t
    case Ping => true
    case Container(version, id) => IsVersion(version) && ValidContainerID(id)
    case Image(version, segments) => IsVersion(version) && IsReference(segments)
  }

  function PrintVersion(v: Version): string {
    v.major + "." + v.minor
  }

  function PrintInspect(t: Target): string
    requires !t.Ping?
  {
    match t
    case Container(_, id) => CONTAINER_PREFIX + id + INSPECT_SUFFIX
    case Image(_, segments) => IMAGE_PREFIX + Join(segments, '/') + INSPECT_SUFFIX
  }

  function Print(t: Target): string {
    if t.Ping? then PING_PATH
    else VERSION_PREFIX + PrintVersion(t.version) + PrintInspect(t)
  }

  function ParseVersion(version: string): Version {
    var dot := IndexByte(version, '.');
    if dot < 0 then Version(version, "") else Version(version[..dot], version[dot + 1..])
  }

  /** What stands between "/v" and the next separator. */
  function VersionOf(path: string): string
    requires TrimAPIVersion(path).Some?
  {
    path[|VERSION_PREFIX|..][..IndexByte(path[|VERSION_PREFIX|..], '/')]
  }

  function ParseInspect(v: Version, rest: string): Option<Target> {
    match TrimAround(rest, CONTAINER_PREFIX, INSPECT_SUFFIX)
    case Some(id) => if ValidContainerID(id) then Some(Container(v, id)) else None
    case None =>
      match TrimAround(rest, IMAGE_PREFIX, INSPECT_SUFFIX)
      case Some(ref) => if ValidImageReference(ref) then Some(Image(v, Split(ref, '/'))) else None
      case None => None
  }

  function Parse(path: string): Option<Target> {
    if path == PING_PATH then Some(Ping)
    else
      match TrimAPIVersion(path)
      case None => None
      case Some(rest) => ParseInspect(ParseVersion(VersionOf(path)), rest)
  }

  // ----------------------------------------------------------- pieces of a parse

  lemma TrimAroundOf(prefix: string, middle: string, suffix: string)
    ensures TrimAround(prefix + middle + suffix, prefix, suffix) == Some(middle)
  {
    var s := prefix + middle + suffix;
    assert s[|prefix|..] == middle + suffix;
    assert (middle + suffix)[|middle|..] == suffix && (middle + suffix)[..|middle|] == middle;
  }

  lemma TrimAroundSound(s: string, prefix: string, suffix: string)
    requires TrimAround(s, prefix, suffix).Some?
    ensures s == prefix + TrimAround(s, prefix, suffix).value + suffix
  {
    var rest := s[|prefix|..];
    assert s == prefix + rest && rest == rest[..|rest| - |suffix|] + suffix;
  }

  lemma VersionInverse(v: Version)
    requires IsVersion(v)
    ensures ValidAPIVersion(PrintVersion(v)) && '/' !in PrintVersion(v) && ParseVersion(PrintVersion(v)) == v
  {
    var version, dot := PrintVersion(v), |v.major|;
    assert forall i :: 0 <= i < dot ==> version[i] == v.major[i];
    assert forall i :: dot < i < |version| ==> version[i] == v.minor[i - dot - 1];
    assert IsDottedPair(version, dot);
    DotIsFirst(version, dot);
    assert version[..dot] == v.major && version[dot + 1..] == v.minor;
  }

  lemma VersionSound(version: string)
    requires ValidAPIVersion(version)
    ensures IsVersion(ParseVersion(version)) && PrintVersion(ParseVersion(version)) == version
  {
    var dot :| 0 <= dot < |version| && IsDottedPair(version, dot);
    DotIsFirst(version, dot);
    assert version == version[..dot] + [version[dot]] + version[dot + 1..];
  }

  lemma VersionedIsNotPing(path: string)
    requires HasPrefix(path, VERSION_PREFIX)
    ensures path != PING_PATH
  {
    assert path[1] == 'v' && PING_PATH[1] == '_';
  }

  lemma TrimVersionOf(version: string, rest: string)
    requires '/' !in version && rest != "" && rest[0] == '/'
    ensures var path := VERSION_PREFIX + version + rest;
            && TrimAPIVersion(path) == (if ValidAPIVersion(version) then Some(rest) else None)
            && (ValidAPIVersion(version) ==> VersionOf(path) == version) && path != PING_PATH
  {
    var path, tail := VERSION_PREFIX + version + rest, version + rest;
    IndexOfFirst(version, '/', rest[1..]);
    assert tail == version + ['/'] + rest[1..];
    assert path[|VERSION_PREFIX|..] == tail && tail[..|version|] == version && tail[|version|..] == rest;
    VersionedIsNotPing(path);
  }

  lemma TrimVersionSound(path: string)
    requires TrimAPIVersion(path).Some?
    ensures ValidAPIVersion(VersionOf(path)) && path != PING_PATH
    ensures path == VERSION_PREFIX + VersionOf(path) + TrimAPIVersion(path).value
  {
    var tail := path[|VERSION_PREFIX|..];
    IndexByteFinds(tail, '/');
    assert path == VERSION_PREFIX + tail;
    VersionedIsNotPing(path);
  }

  /** A container tail and an image tail differ in their second byte. */
  lemma TailsDiffer(rest: string)
    requires HasPrefix(rest, IMAGE_PREFIX)
    ensures !HasPrefix(rest, CONTAINER_PREFIX)
  {
    assert rest[1] == IMAGE_PREFIX[1] == 'i' && CONTAINER_PREFIX[1] == 'c';
  }

  lemma {:induction false} JoinBytes(segments: seq<string>, c: char, p: char -> bool)
    requires p(c) && forall segment, b :: segment in segments && b in segment ==> p(b)
    ensures forall b :: b in Join(segments, c) ==> p(b)
  {
    if |segments| > 1 {
      JoinBytes(segments[1..], c, p);
      assert segments[0] in segments;
    }
  }

  lemma ReferenceInverse(segments: seq<string>)
    requires IsReference(segments)
    ensures ValidImageReference(Join(segments, '/')) && Split(Join(segments, '/'), '/') == segments
  {
    assert forall segment :: segment in segments ==> '/' !in segment;
    SplitJoin(segments, '/');
    JoinBytes(segments, '/', IsPathByte);
    assert segments[0] in segments && GoodSegment(segments[0]);
  }

  lemma ReferenceSound(ref: string)
    requires ValidImageReference(ref)
    ensures IsReference(Split(ref, '/')) && Join(Split(ref, '/'), '/') == ref
  {
    JoinSplit(ref, '/');
    SplitParts(ref, '/');
  }

  lemma InspectOfPrint(t: Target)
    requires InGrammar(t) && !t.Ping?
    ensures PrintInspect(t) != "" && PrintInspect(t)[0] == '/' && ParseInspect(t.version, PrintInspect(t)) == Some(t)
  {
    match t
    case Container(_, id) =>
      TrimAroundOf(CONTAINER_PREFIX, id, INSPECT_SUFFIX);
    case Image(_, segments) =>
      TrimAroundOf(IMAGE_PREFIX, Join(segments, '/'), INSPECT_SUFFIX);
      TailsDiffer(PrintInspect(t));
      ReferenceInverse(segments);
  }

  lemma InspectOfParse(v: Version, rest: string)
    requires IsVersion(v) && ParseInspect(v, rest).Some?
    ensures var t := ParseInspect(v, rest).value;
            InGrammar(t) && !t.Ping? && t.version == v && PrintInspect(t) == rest
  {
    if TrimAround(rest, CONTAINER_PREFIX, INSPECT_SUFFIX).Some? {
      TrimAroundSound(rest, CONTAINER_PREFIX, INSPECT_SUFFIX);
    } else {
      TrimAroundSound(rest, IMAGE_PREFIX, INSPECT_SUFFIX);
      ReferenceSound(TrimAround(rest, IMAGE_PREFIX, INSPECT_SUFFIX).value);
    }
  }

  // ------------------------------------------------ the validators, spelled out

  lemma ByteSets(c: char)
    ensures IsDigit(c) <==> c in "0123456789"
    ensures IsHexDigit(c) <==> c in "0123456789abcdef"
  {
    assert IsDigit(c) ==> "0123456789"[c as int - '0' as int] == c;
    assert 'a' <= c <= 'f' ==> "0123456789abcdef"[c as int - 'a' as int + 10] == c;
    assert IsDigit(c) ==> "0123456789abcdef"[c as int - '0' as int] == c;
  }

  lemma ContainerIDIff(id: string)
    ensures ValidContainerID(id) <==> |id| == 64 && forall c :: c in id ==> c in "0123456789abcdef"
  {
    forall c | c in id
      ensures IsHexDigit(c) <==> c in "0123456789abcdef"
    {
      ByteSets(c);
    }
  }

  /** Digits, one dot, digits. */
  lemma APIVersionIff(version: string)
    ensures ValidAPIVersion(version) <==>
            3 <= |version| <= 16 &&
            exists major, minor ::
              && version == major + "." + minor && major != "" && minor != ""
              && forall c :: c in major + minor ==> c in "0123456789"
  {
    if ValidAPIVersion(version) {
      VersionSound(version);
      var v := ParseVersion(version);
      forall c | c in v.major + v.minor
        ensures c in "0123456789"
      {
        ByteSets(c);
      }
    }
    forall major, minor | version == major + "." + minor && major != "" && minor != "" && 3 <= |version| <= 16 &&
                          forall c :: c in major + minor ==> c in "0123456789"
      ensures ValidAPIVersion(version)
    {
      forall c | c in major || c in minor
        ensures IsDigit(c)
      {
        assert c in major + minor;
        ByteSets(c);
      }
      VersionInverse(Version(major, minor));
    }
  }

  /** No segment is empty or a dot name, and their bytes are letters, digits and "._:@+-". */
  ghost predicate AreParts(segments: seq<string>) {
    segments != [] &&
    forall segment :: segment in segments ==>
      && segment != "" && segment != "." && segment != ".."
      && forall c :: c in segment ==>
           'a' <= c <= 'z' || 'A' <= c <= 'Z' || '0' <= c <= '9' || c in "._:@+-"
  }

  /** Up to 1024 bytes of such segments, between slashes. */
  lemma ImageReferenceIff(ref: string)
    ensures ValidImageReference(ref) <==>
            |ref| <= 1024 && exists segments :: ref == Join(segments, '/') && AreParts(segments)
  {
    if ValidImageReference(ref) {
      ReferenceSound(ref);
      assert AreParts(Split(ref, '/'));
    }
    forall segments | ref == Join(segments, '/') && AreParts(segments) && |ref| <= 1024
      ensures ValidImageReference(ref)
    {
      ReferenceInverse(segments);
    }
  }

  // ---------------------------------------------------------------- the theorems

  /** Printing a target of the grammar and parsing it gives the target back. */
  lemma ParseOfPrint(t: Target)
    requires InGrammar(t)
    ensures Parse(Print(t)) == Some(t)
  {
    if !t.Ping? {
      VersionInverse(t.version);
      InspectOfPrint(t);
      TrimVersionOf(PrintVersion(t.version), PrintInspect(t));
    }
  }

  /** A parse is in the grammar and prints back to the path it came from. */
  lemma PrintOfParse(path: string)
    requires Parse(path).Some?
    ensures InGrammar(Parse(path).value) && Print(Parse(path).value) == path
  {
    if path != PING_PATH {
      TrimVersionSound(path);
      VersionSound(VersionOf(path));
      InspectOfParse(ParseVersion(VersionOf(path)), TrimAPIVersion(path).value);
    }
  }

  /** Each accepted path has one parse, so the kinds of route are disjoint. */
  lemma PrintIsInjective(t: Target, u: Target)
    requires InGrammar(t) && InGrammar(u) && Print(t) == Print(u)
    ensures t == u
  {
    ParseOfPrint(t);
    ParseOfPrint(u);
  }

  /** Methods under which a kind of route is accepted. */
  predicate MethodAllowed(verb: string, kind: RouteKind) {
    verb == "GET" || (kind == PingRoute && verb == "HEAD")
  }

  lemma InspectIsParse(v: Version, rest: string)
    ensures ClassifyInspect(rest) ==
            match ParseInspect(v, rest) case None => None case Some(t) => Some(t.Kind())
    ensures ClassifyInspect(rest) != Some(PingRoute)
  {
  }

  lemma PathIsParse(verb: string, path: string)
    ensures ClassifyPath(verb, path) ==
            match Parse(path)
            case None => None
            case Some(t) => if MethodAllowed(verb, t.Kind()) then Some(Route(t.Kind(), path)) else None
  {
    if path != PING_PATH && TrimAPIVersion(path).Some? {
      InspectIsParse(ParseVersion(VersionOf(path)), TrimAPIVersion(path).value);
    }
  }

  ghost predicate NoDouble(s: string) {
    forall i :: 0 <= i < |s| - 1 ==> !(s[i] == '/' && s[i + 1] == '/')
  }

  ghost predicate OnlyPathBytes(s: string) {
    forall c :: c in s ==> IsPathByte(c)
  }

  lemma NoDoubleConcat(a: string, b: string)
    requires NoDouble(a) && NoDouble(b) && (a == "" || b == "" || a[|a| - 1] != '/' || b[0] != '/')
    ensures NoDouble(a + b)
  {
    forall i | 0 <= i < |a + b| - 1
      ensures !((a + b)[i] == '/' && (a + b)[i + 1] == '/')
    {
      if i >= |a| {
        assert (a + b)[i] == b[i - |a|] && (a + b)[i + 1] == b[i - |a| + 1];
      }
    }
  }

  lemma JoinedNoDouble(head: string, tail: string)
    requires head != "" && '/' !in head && tail != "" && NoDouble(tail) && tail[0] != '/' && tail[|tail| - 1] != '/'
    ensures var s := head + "/" + tail; NoDouble(s) && s[0] != '/' && s[|s| - 1] != '/'
  {
    NoSeparator(head);
    NoDoubleConcat(head, "/");
    NoDoubleConcat(head + "/", tail);
  }

  /** Segments that are not empty leave no room for a leading, trailing or doubled separator. */
  lemma {:induction false} GoodSegmentsNoDouble(ref: string)
    requires AllGood(Split(ref, '/'))
    ensures ref != "" && NoDouble(ref) && ref[0] != '/' && ref[|ref| - 1] != '/'
    decreases |ref|
  {
    var k := IndexByte(ref, '/');
    IndexByteFinds(ref, '/');
    if k >= 0 {
      var head, tail := ref[..k], ref[k + 1..];
      AllGoodCons(head, Split(tail, '/'));
      GoodSegmentsNoDouble(tail);
      JoinedNoDouble(head, tail);
      assert ref == head + "/" + tail;
    } else {
      assert ref in Split(ref, '/');
      NoSeparator(ref);
    }
  }

  lemma VersionBytes(v: Version)
    requires IsVersion(v)
    ensures var version := PrintVersion(v);
            version != "" && OnlyPathBytes(version) && NoDouble(version) && version[|version| - 1] != '/'
  {
    assert forall c :: c in PrintVersion(v) ==> IsDigit(c) || c == '.';
    NoSeparator(PrintVersion(v));
  }

  lemma NoSeparator(s: string)
    requires s != "" && '/' !in s
    ensures NoDouble(s) && s[0] != '/' && s[|s| - 1] != '/'
  {
    assert forall i :: 0 <= i < |s| ==> s[i] in s;
  }

  lemma InspectBytes(prefix: string, middle: string)
    requires prefix in {CONTAINER_PREFIX, IMAGE_PREFIX}
    requires middle != "" && OnlyPathBytes(middle) && NoDouble(middle)
    requires middle[0] != '/' && middle[|middle| - 1] != '/'
    ensures var tail := prefix + middle + INSPECT_SUFFIX;
            OnlyPathBytes(tail) && NoDouble(tail)
  {
    assert NoDouble(prefix) && OnlyPathBytes(prefix) && NoDouble(INSPECT_SUFFIX) && OnlyPathBytes(INSPECT_SUFFIX);
    NoDoubleConcat(prefix, middle);
    assert (prefix + middle)[|prefix + middle| - 1] == middle[|middle| - 1];
    NoDoubleConcat(prefix + middle, INSPECT_SUFFIX);
  }

  lemma NotSuspect(path: string)
    requires OnlyPathBytes(path) && NoDouble(path)
    ensures !HasSuspectBytes(path)
  {
  }

  /** No target of the grammar contains what the early check looks for. */
  lemma GrammarBytes(t: Target)
    requires InGrammar(t)
    ensures OnlyPathBytes(Print(t)) && NoDouble(Print(t)) && !HasSuspectBytes(Print(t))
  {
    if !t.Ping? {
      VersionBytes(t.version);
      if t.Container? {
        assert forall c :: c in t.id ==> IsHexDigit(c);
        NoSeparator(t.id);
        InspectBytes(CONTAINER_PREFIX, t.id);
      } else {
        ReferenceInverse(t.segments);
        GoodSegmentsNoDouble(Join(t.segments, '/'));
        InspectBytes(IMAGE_PREFIX, Join(t.segments, '/'));
      }
      NoDoubleConcat(VERSION_PREFIX, PrintVersion(t.version));
      NoDoubleConcat(VERSION_PREFIX + PrintVersion(t.version), PrintInspect(t));
    }
    NotSuspect(Print(t));
  }

  /** Classify accepts exactly the plain requests whose path is a target of the grammar, under that target's kind. */
  lemma ClassifyIsTheGrammar(r: Request, route: Route)
    ensures Classify(Some(r)) == Some(route) <==>
            && IsPlain(r) && route.path == r.url.value.path
            && exists t ::
                 InGrammar(t) && Print(t) == route.path && route.kind == t.Kind() && MethodAllowed(r.verb, t.Kind())
  {
    if IsPlain(r) {
      var path := r.url.value.path;
      PathIsParse(r.verb, path);
      if Parse(path).Some? {
        PrintOfParse(path);
        GrammarBytes(Parse(path).value);
      }
      forall t | InGrammar(t) && Print(t) == path
        ensures Parse(path) == Some(t)
      {
        ParseOfPrint(t);
      }
    }
  }

  /** The accepted requests are exactly the targets of the grammar, written as they are, with no body and no query,
      under GET, and the ping under HEAD too; the route says which target it is. */
  lemma AcceptedIff(r: Request, route: Route)
    ensures Classify(Some(r)) == Some(route) <==>
            exists t ::
              && InGrammar(t) && (r.verb == "GET" || (t == Ping && r.verb == "HEAD"))
              && r == Request(r.verb, Some(URL(Print(t), "", "", false)), Print(t), 0, [])
              && route == Route(if t.Ping? then PingRoute else if t.Container? then ContainerInspect
                                else ImageInspect, Print(t))
  {
    ClassifyIsTheGrammar(r, route);
    if Classify(Some(r)) == Some(route) {
      var t :| InGrammar(t) && Print(t) == route.path && route.kind == t.Kind() && MethodAllowed(r.verb, t.Kind());
      assert r == Request(r.verb, Some(URL(Print(t), "", "", false)), Print(t), 0, []);
    }
    forall t | InGrammar(t) && (r.verb == "GET" || (t == Ping && r.verb == "HEAD")) &&
               r == Request(r.verb, Some(URL(Print(t), "", "", false)), Print(t), 0, []) &&
               route == Route(t.Kind(), Print(t))
      ensures Classify(Some(r)) == Some(route)
    {
      PrintIsAbsolute(t);
      assert MethodAllowed(r.verb, t.Kind());
    }
  }

  lemma PrintIsAbsolute(t: Target)
    ensures Print(t) != "" && Print(t)[0] == '/'
  {
  }

  /** Leaving out the early check on the path's bytes would accept nothing more. */
  lemma EarlyCheckIsRedundant(r: Request)
    requires IsPlain(r)
    ensures Classify(Some(r)) == ClassifyPath(r.verb, r.url.value.path)
  {
    var path := r.url.value.path;
    PathIsParse(r.verb, path);
    if Parse(path).Some? {
      PrintOfParse(path);
      GrammarBytes(Parse(path).value);
    }
  }

  const CONTAINER_LIST := "/containers/json"
  const IMAGE_LIST := "/images/json"

  lemma ListTailIsRefused(rest: string)
    requires rest == CONTAINER_LIST || rest == IMAGE_LIST
    ensures ClassifyInspect(rest) == None && rest[0] == '/' && !HasPrefix(rest, VERSION_PREFIX) && rest != PING_PATH
  {
    if rest == IMAGE_LIST {
      assert rest[1] == 'i' && CONTAINER_PREFIX[1] == 'c';
      assert rest[|IMAGE_PREFIX|..] == "json";
    } else {
      assert rest[1] == 'c' && IMAGE_PREFIX[1] == 'i';
      assert rest[|CONTAINER_PREFIX|..] == "json";
    }
  }

  /** The list endpoints are an inspect prefix and suffix with nothing between them: they are accepted neither bare
      nor under any version. */
  lemma CollectionsAreRefused(r: Request, version: string, rest: string)
    requires '/' !in version && (rest == CONTAINER_LIST || rest == IMAGE_LIST)
    requires r.url.Some? && (r.url.value.path == rest || r.url.value.path == VERSION_PREFIX + version + rest)
    ensures Classify(Some(r)) == None
  {
    ListTailIsRefused(rest);
    TrimVersionOf(version, rest);
  }
}
