/** Path resolution of internal/gangway/socketpath.go: the worklist loop and the recursive walk it must agree with.
    A filesystem is what Lstat and Readlink report for each place. */
module PathResolution {
  import opened Text
  import opened PathWalk

  /** The budget for path depth and symlink hops together. */
  const MAX_PATH_COMPONENTS := 255

  datatype Node =
    | Missing                // Lstat reports ErrNotExist
    | Failing                // Lstat fails otherwise
    | Directory
    | Socket(ino: nat)
    | Regular(ino: nat)
    | Link(target: string)
    | BadLink                // a symlink that Readlink cannot read

  type FS = Place -> Node

  // ------------------------------------------------------------ paths as strings

  predicate IsAbs(path: string) {
    HasPrefix(path, "/")
  }

  function NonEmpty(parts: seq<string>): seq<string> {
    if parts == [] then []
    else if parts[0] == "" then NonEmpty(parts[1..])
    else [parts[0]] + NonEmpty(parts[1..])
  }

  /** The names in a path, without the empty ones that leading, trailing and repeated separators make. */
  function Components(path: string): seq<string> {
    NonEmpty(Split(path, '/'))
  }

  function Render(place: Place): string {
    if place == [] then "/" else Slashed(place)
  }

  predicate IsName(name: string) {
    name != "" && '/' !in name
  }

  predicate AreNames(names: seq<string>) {
    forall name :: name in names ==> IsName(name)
  }

  lemma {:induction false} NonEmptyConcat(a: seq<string>, b: seq<string>)
    ensures NonEmpty(a + b) == NonEmpty(a) + NonEmpty(b)
  {
    if a == [] {
      assert a + b == b;
    } else {
      assert (a + b)[1..] == a[1..] + b;
      NonEmptyConcat(a[1..], b);
    }
  }

  lemma NonEmptyUpTo(parts: seq<string>, i: nat)
    requires i < |parts|
    ensures NonEmpty(parts[..i + 1]) == NonEmpty(parts[..i]) + if parts[i] == "" then [] else [parts[i]]
  {
    NonEmptyConcat(parts[..i], [parts[i]]);
    assert [parts[i]][1..] == [];
    assert parts[..i + 1] == parts[..i] + [parts[i]];
  }

  lemma {:induction false} NonEmptyKeeps(parts: seq<string>)
    ensures forall part :: part in NonEmpty(parts) <==> part in parts && part != ""
  {
    if parts != [] {
      NonEmptyKeeps(parts[1..]);
    }
  }

  lemma {:induction false} NonEmptyOfNames(names: seq<string>)
    requires AreNames(names)
    ensures NonEmpty(names) == names
  {
    if names != [] {
      assert IsName(names[0]);
      NonEmptyOfNames(names[1..]);
    }
  }

  lemma ComponentsAreNames(path: string)
    ensures AreNames(Components(path))
  {
    SplitParts(path, '/');
    NonEmptyKeeps(Split(path, '/'));
  }

  lemma NoComponents()
    ensures Components("") == []
  {
    SplitNone("", '/');
    assert NonEmpty([""]) == NonEmpty([""][1..]);
  }

  /** A path of one name has that component, */
  lemma ComponentsOfName(name: string)
    requires IsName(name)
    ensures Components(name) == [name]
  {
    SplitNone(name, '/');
    NonEmptyOfNames([name]);
  }

  /** and a path joined to another with a separator has the components of both. */
  lemma ComponentsConcat(a: string, b: string)
    ensures Components(a + "/" + b) == Components(a) + Components(b)
  {
    SplitConcat(a, '/', b);
    NonEmptyConcat(Split(a, '/'), Split(b, '/'));
  }

  /** Rendering a place and splitting it gives the place back, so places are equal when their strings are. */
  lemma ComponentsOfRender(place: Place)
    requires AreNames(place)
    ensures Components(Render(place)) == place
  {
    if place == [] {
      SplitStep("", '/', "");
      SplitNone("", '/');
      assert "" + ['/'] + "" == "/";
      assert NonEmpty(["", ""]) == NonEmpty([""]) == [];
    } else {
      SlashedJoin(place);
      SplitJoin(place, '/');
      SplitStep("", '/', Join(place, '/'));
      assert "" + ['/'] + Join(place, '/') == Slashed(place);
      assert ([""] + place)[1..] == place;
      NonEmptyOfNames(place);
    }
  }

  method PathComponents(path: string) returns (components: seq<string>)
    ensures components == Components(path)
  {
    var parts := Split(path, '/');
    components := [];
    for i := 0 to |parts|
      invariant components == NonEmpty(parts[..i])
    {
      NonEmptyUpTo(parts, i);
      if parts[i] != "" {
        components := components + [parts[i]];
      }
    }
    assert parts[..|parts|] == parts;
  }

  // -------------------------------------------------------------- the resolver

  function Parent(place: Place): Place {
    if place == [] then [] else place[..|place| - 1]
  }

  predicate IsDots(name: string) {
    name == "." || name == ".."
  }

  /** What the resolver does with one name: nothing is expanded below what does not exist, but names still apply. */
  function Advance(fs: FS, at: Place, name: string): Move {
    if name == "." then To(at)
    else if name == ".." then To(Parent(at))
    else
      match fs(at + [name])
      case Missing | Directory | Socket(_) | Regular(_) => To(at + [name])
      case Failing | BadLink => Stop(Denied)
      case Link(target) => Expand(if IsAbs(target) then [] else at, Components(target))
  }

  function Steps(fs: FS): Moves {
    (at: Place, name: string) => Advance(fs, at, name)
  }

  function Resolve(fs: FS, path: string): Outcome {
    Walk(Steps(fs), [], Components(path), MAX_PATH_COMPONENTS)
  }

  /** The moves `m` are the resolver's on this filesystem. */
  ghost predicate AreSteps(fs: FS, m: Moves) {
    forall at: Place, name: string {:trigger Advance(fs, at, name)} :: m(at, name) == Advance(fs, at, name)
  }

  /** What one pass of the loop of `resolvePath` does with a name. */
  method ApplyName(fs: FS, ghost m: Moves, resolved: Place, name: string) returns (move: Move)
    requires AreSteps(fs, m)
    ensures move == m(resolved, name)
  {
    assert m(resolved, name) == Advance(fs, resolved, name);
    if name == "." {
      return To(resolved);
    }
    if name == ".." {
      return To(Parent(resolved));
    }
    var next := resolved + [name];
    match fs(next)
    case Missing | Directory | Socket(_) | Regular(_) =>
      return To(next);
    case Failing | BadLink =>
      return Stop(Denied);
    case Link(target) =>
      var inner := PathComponents(target);
      return Expand(if IsAbs(target) then [] else resolved, inner);
  }

  /** The loop of `resolvePath`, which expands links by putting their names in front of the queue, computes the walk,
      which expands each link completely before the names after it. */
  method ResolveNames(fs: FS, ghost m: Moves, names: seq<string>, limit: nat) returns (r: Outcome)
    requires AreSteps(fs, m)
    ensures r == Walk(m, [], names, limit)
  {
    var resolved: Place, pending, budget := [], names, limit;
    while pending != []
      invariant Walk(m, resolved, pending, budget) == Walk(m, [], names, limit)
      decreases budget
    {
      if budget == 0 {
        return TooLong;
      }
      var name, rest := pending[0], pending[1..];
      budget := budget - 1;
      WalkStep(m, resolved, pending, budget);
      var move := ApplyName(fs, m, resolved, name);
      match move
      case Stop(error) =>
        return Failed(error);
      case To(place) =>
        resolved, pending := place, rest;
      case Expand(base, inner) =>
        resolved, pending := base, inner + rest;
    }
    return Resolved(resolved, budget);
  }

  method ResolvePath(fs: FS, path: string) returns (r: Outcome)
    ensures r == Resolve(fs, path)
  {
    var names := PathComponents(path);
    r := ResolveNames(fs, Steps(fs), names, MAX_PATH_COMPONENTS);
  }

  /** The resolver returns a place exactly when the unbounded walk meets no error, ends there, and applies at most 255
      names in all. */
  lemma ResolveIffReaches(fs: FS, path: string, end: Place)
    ensures Resolve(fs, path).Resolved? && Resolve(fs, path).place == end <==>
            ReachesWithin(Steps(fs), [], Components(path), 255, end)
  {
    WalkIffReaches(Steps(fs), [], Components(path), MAX_PATH_COMPONENTS, end);
  }

  /** Every symlink cycle that resolution reaches is refused: a name that, while it is being expanded, comes up again at
      the same place. */
  lemma CyclesAreRefused(fs: FS, path: string, j: nat, at: Place, name: string, rest: seq<string>, k: nat,
                         more: seq<string>)
    requires Leads(Steps(fs), Config([], Components(path)), j, Config(at, [name] + rest))
    requires k > 0 && Leads(Steps(fs), Config(at, [name]), k, Config(at, [name] + more))
    ensures !Resolve(fs, path).Resolved?
  {
    CycleReached(Steps(fs), Config([], Components(path)), j, at, name, rest, k, more, MAX_PATH_COMPONENTS);
  }

  // ------------------------------------------------------------- canonical results

  predicate IsPlain(node: Node) {
    node.Missing? || node.Directory? || node.Socket? || node.Regular?
  }

  predicate IsCanonicalName(name: string) {
    IsName(name) && !IsDots(name)
  }

  /** No name is empty, "." or "..", and neither the place nor one on the way to it is a symlink. */
  ghost predicate Canonical(fs: FS, place: Place) {
    && (forall name :: name in place ==> IsCanonicalName(name))
    && (forall i :: 0 < i <= |place| ==> IsPlain(fs(place[..i])))
  }

  lemma CanonicalParent(fs: FS, place: Place)
    requires Canonical(fs, place)
    ensures Canonical(fs, Parent(place))
  {
    var p := Parent(place);
    assert forall i :: 0 < i <= |p| ==> p[..i] == place[..i];
  }

  lemma CanonicalChild(fs: FS, place: Place, name: string)
    requires Canonical(fs, place) && IsCanonicalName(name) && IsPlain(fs(place + [name]))
    ensures Canonical(fs, place + [name])
  {
    var p := place + [name];
    assert p[..|p|] == p;
    assert forall i :: 0 < i <= |place| ==> p[..i] == place[..i];
  }

  lemma AdvanceIsCanonical(fs: FS, at: Place, name: string)
    requires Canonical(fs, at) && IsName(name)
    ensures match Advance(fs, at, name)
            case Stop(_) => true
            case To(p) => Canonical(fs, p) && |p| <= |at| + 1
            case Expand(base, inner) => Canonical(fs, base) && |base| <= |at| && AreNames(inner)
  {
    CanonicalParent(fs, at);
    if !IsDots(name) {
      if IsPlain(fs(at + [name])) {
        CanonicalChild(fs, at, name);
      } else if fs(at + [name]).Link? {
        ComponentsAreNames(fs(at + [name]).target);
      }
    }
  }

  /** Each name of a canonical place leads on to the next place on its way. */
  lemma CanonicalIsStraight(fs: FS, place: Place)
    requires Canonical(fs, place)
    ensures IsStraight(Steps(fs), [], place)
  {
    forall i | 0 <= i < |place|
      ensures Steps(fs)([] + place[..i], place[i]) == To([] + place[..i] + [place[i]])
    {
      CanonicalNext(fs, place, i);
    }
  }

  lemma CanonicalNext(fs: FS, place: Place, i: nat)
    requires Canonical(fs, place) && i < |place|
    ensures Steps(fs)([] + place[..i], place[i]) == To([] + place[..i] + [place[i]])
  {
    var at := place[..i];
    assert [] + at == at && at + [place[i]] == place[..i + 1] && place[i] in place;
  }

  /** A canonical place is its own resolution, at the cost of its depth. */
  lemma CanonicalWalk(fs: FS, place: Place, budget: nat)
    requires Canonical(fs, place) && |place| <= budget
    ensures Walk(Steps(fs), [], place, budget) == Resolved(place, budget - |place|)
  {
    CanonicalIsStraight(fs, place);
    StraightWalk(Steps(fs), [], place, budget);
    assert [] + place == place;
  }

  lemma WalkIsCanonical(fs: FS, names: seq<string>, budget: nat)
    requires AreNames(names) && Walk(Steps(fs), [], names, budget).Resolved?
    ensures var r := Walk(Steps(fs), [], names, budget); Canonical(fs, r.place) && |r.place| <= budget
  {
    var good := (p: Place) => Canonical(fs, p);
    forall at: Place, x: string | good(at) && IsName(x)
      ensures match Steps(fs)(at, x)
              case Stop(_) => true
              case To(p) => good(p) && |p| <= |at| + 1
              case Expand(base, inner) => good(base) && |base| <= |at| && forall y :: y in inner ==> IsName(y)
    {
      AdvanceIsCanonical(fs, at, x);
    }
    WalkKeeps(Steps(fs), good, IsName, [], names, budget);
  }

  /** What the resolver returns is canonical, at most 255 names deep, and resolves to itself. */
  lemma ResolveIsCanonical(fs: FS, path: string)
    requires Resolve(fs, path).Resolved?
    ensures var place := Resolve(fs, path).place;
            && Canonical(fs, place) && |place| <= MAX_PATH_COMPONENTS
            && Resolve(fs, Render(place)) == Resolved(place, MAX_PATH_COMPONENTS - |place|)
  {
    var place := Resolve(fs, path).place;
    ComponentsAreNames(path);
    WalkIsCanonical(fs, Components(path), MAX_PATH_COMPONENTS);
    ComponentsOfRender(place);
    CanonicalWalk(fs, place, MAX_PATH_COMPONENTS);
  }

  // ------------------------------------------------------ what each kind of name does

  /** "." is passed over. */
  lemma DotIsPassedOver(fs: FS, at: Place, rest: seq<string>, budget: nat)
    ensures Walk(Steps(fs), at, ["."] + rest, budget + 1) == Walk(Steps(fs), at, rest, budget)
  {
    StepTo(Steps(fs), at, ".", rest, budget);
  }

  /** ".." undoes a name that is no symlink, */
  lemma DotDotUndoes(fs: FS, at: Place, name: string, rest: seq<string>, budget: nat)
    requires IsCanonicalName(name) && IsPlain(fs(at + [name]))
    ensures Walk(Steps(fs), at, [name, ".."] + rest, budget + 2) == Walk(Steps(fs), at, rest, budget)
  {
    NameIsEntered(fs, at, name, [".."] + rest, budget + 1);
    assert [name, ".."] + rest == [name] + ([".."] + rest);
    assert (at + [name])[..|at|] == at;
    StepTo(Steps(fs), at + [name], "..", rest, budget);
  }

  /** and leads from the root nowhere. */
  lemma DotDotStaysAtRoot(fs: FS, rest: seq<string>, budget: nat)
    ensures Walk(Steps(fs), [], [".."] + rest, budget + 1) == Walk(Steps(fs), [], rest, budget)
  {
    StepTo(Steps(fs), [], "..", rest, budget);
  }

  /** A name that is no symlink is entered, whether or not there is anything. */
  lemma NameIsEntered(fs: FS, at: Place, name: string, rest: seq<string>, budget: nat)
    requires IsCanonicalName(name) && IsPlain(fs(at + [name]))
    ensures Walk(Steps(fs), at, [name] + rest, budget + 1) == Walk(Steps(fs), at + [name], rest, budget)
  {
    StepTo(Steps(fs), at, name, rest, budget);
  }

  /** A symlink stands for its target, read from the root or from the directory that holds the link. */
  lemma LinkIsItsTarget(fs: FS, at: Place, name: string, target: string, rest: seq<string>, budget: nat)
    requires IsCanonicalName(name) && fs(at + [name]) == Link(target)
    ensures Walk(Steps(fs), at, [name] + rest, budget + 1)
         == Walk(Steps(fs), if target != "" && target[0] == '/' then [] else at, Components(target) + rest, budget)
  {
    StepExpand(Steps(fs), at, name, rest, budget);
  }

  /** What Lstat or Readlink fails on ends the resolution. */
  lemma FailureEndsIt(fs: FS, at: Place, name: string, rest: seq<string>, budget: nat)
    requires IsCanonicalName(name) && (fs(at + [name]).Failing? || fs(at + [name]).BadLink?)
    ensures Walk(Steps(fs), at, [name] + rest, budget + 1) == Failed(Denied)
  {
    StepStop(Steps(fs), at, name, rest, budget);
  }
}
