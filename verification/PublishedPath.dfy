/** Where `Listen` of internal/gangway/socket.go puts its socket, seen on the whole directory tree, and why that is
    never the Docker socket that `ValidatePaths` compared it with. Module SocketProtocol has the other view: many
    instances, one directory. */
module PublishedPath {
  import opened PathWalk
  import opened PathResolution
  import opened PathAliases
  import opened SocketDirectory

  const LOCK_SUFFIX := ".lock"

  /** Name of the socket inside its private staging directory. */
  const STAGED_NAME := "s"

  // --------------------------------------------------------------- clean paths

  /** "." and ".." taken away without looking at the filesystem, as filepath.Clean does. */
  function Lexical(names: seq<string>, place: Place): Place {
    if names == [] then place
    else if names[0] == "." then Lexical(names[1..], place)
    else if names[0] == ".." then Lexical(names[1..], Parent(place))
    else Lexical(names[1..], place + [names[0]])
  }

  /** filepath.Clean of an absolute path. */
  function Clean(path: string): string {
    Render(Lexical(Components(path), []))
  }

  predicate IsClean(path: string) {
    IsAbs(path) && Clean(path) == path
  }

  lemma {:induction false} LexicalIsCanonical(names: seq<string>, place: Place)
    requires AreNames(names) && AreCanonical(place)
    ensures AreCanonical(Lexical(names, place))
  {
    if names != [] {
      assert IsName(names[0]) && AreNames(names[1..]);
      var name := names[0];
      LexicalIsCanonical(names[1..],
                         if name == "." then place else if name == ".." then Parent(place) else place + [name]);
    }
  }

  /** Names that are not dots are kept, */
  lemma {:induction false} LexicalKeeps(names: seq<string>, place: Place)
    requires AreCanonical(names)
    ensures Lexical(names, place) == place + names
  {
    if names != [] {
      assert names[0] in names && AreCanonical(names[1..]);
      LexicalKeeps(names[1..], place + [names[0]]);
    }
  }

  /** "." is passed over, and ".." takes the name before it away, or nothing at the root. */
  lemma LexicalDots(names: seq<string>, place: Place, name: string)
    requires IsCanonicalName(name)
    ensures Lexical(["."] + names, place) == Lexical(names, place)
    ensures Lexical([name, ".."] + names, place) == Lexical(names, place)
    ensures Lexical([".."] + names, []) == Lexical(names, [])
  {
    assert (["."] + names)[1..] == names && ([".."] + names)[1..] == names;
    assert ([name, ".."] + names)[1..] == [".."] + names && Parent(place + [name]) == place;
  }

  /** The clean paths are exactly the renderings of places, so a path of ordinary names is one. */
  lemma CleanIff(path: string)
    ensures IsClean(path) <==> exists place: Place :: AreCanonical(place) && path == Render(place)
  {
    if IsClean(path) {
      CleanNames(path);
    }
    forall place: Place | AreCanonical(place) && path == Render(place)
      ensures IsClean(path)
    {
      ComponentsOfRender(place);
      LexicalKeeps(place, []);
      assert [] + place == place;
    }
  }

  /** A clean path is the rendering of its names, and none of them is a dot name. */
  lemma CleanNames(path: string)
    requires IsClean(path)
    ensures AreCanonical(Components(path)) && Render(Components(path)) == path
  {
    ComponentsAreNames(path);
    LexicalIsCanonical(Components(path), []);
    ComponentsOfRender(Lexical(Components(path), []));
  }

  /** Where there are no symlinks, and everything can be looked at, cleaning a path does what resolving it does. */
  lemma {:induction false} CleaningIsResolving(fs: FS, names: seq<string>, place: Place, budget: nat)
    requires AreNames(names) && |names| <= budget && forall q: Place :: IsPlain(fs(q))
    ensures Walk(Steps(fs), place, names, budget) == Resolved(Lexical(names, place), budget - |names|)
    decreases |names|
  {
    if names != [] {
      var rest, next := names[1..], Advance(fs, place, names[0]);
      assert names == [names[0]] + rest && next.To?;
      StepTo(Steps(fs), place, names[0], rest, budget - 1);
      CleaningIsResolving(fs, rest, next.place, budget - 1);
    }
  }

  /** Where there is one, it does not: a symlink and ".." lead to the parent of what the link names, but cleaning takes
      both away. They agree exactly if the link names something in its own directory. */
  lemma CleaningAgreesIff(fs: FS, at: Place, name: string, target: string, budget: nat)
    requires IsCanonicalName(name) && fs(at + [name]) == Link(target)
    requires var r := Walk(Steps(fs), if IsAbs(target) then [] else at, Components(target), budget);
             r.Resolved? && r.left > 0
    ensures var end := Walk(Steps(fs), if IsAbs(target) then [] else at, Components(target), budget).place;
            var up := Walk(Steps(fs), at, [name, ".."], budget + 1);
            up.Resolved? && (up.place == Lexical([name, ".."], at) <==> Parent(end) == at)
  {
    var m, base := Steps(fs), if IsAbs(target) then [] else at;
    LinkIsItsTarget(fs, at, name, target, [".."], budget);
    WalkConcat(m, base, Components(target), [".."], budget);
    var r := Walk(m, base, Components(target), budget);
    WalkTo(m, r.place, "..", r.left);
    LexicalDots([], at, name);
    assert [name] + [".."] == [name, ".."] == [name, ".."] + [];
  }

  /** The names of filepath.Dir and of filepath.Base of a clean path. */
  function DirNames(path: string): seq<string> {
    Parent(Components(path))
  }

  function BaseName(path: string): string {
    var names := Components(path);
    if names == [] then "" else names[|names| - 1]
  }

  lemma CleanSplit(path: string)
    requires IsClean(path) && Components(path) != []
    ensures Components(path) == DirNames(path) + [BaseName(path)] && IsCanonicalName(BaseName(path))
  {
    CleanNames(path);
    LastOf(Components(path));
  }

  // ------------------------------------------------------ the entry and Docker's

  lemma OneNameMore(now: FS, dir: seq<string>, base: string, kernel: nat)
    requires Lookup(now, dir, kernel).Resolved? && IsCanonicalName(base)
    requires IsPlain(now(Lookup(now, dir, kernel).place + [base]))
    ensures var r := Walk(Steps(now), [], dir + [base], kernel + 1);
            r.Resolved? && r.place == Lookup(now, dir, kernel).place + [base]
  {
    var at := Lookup(now, dir, kernel).place;
    KernelAgrees(now, dir, dir, kernel);
    assert Steps(now)(at, base) == To(at + [base]);
    WalkOneMore(Steps(now), [], dir, base, kernel);
  }

  /** Where the kernel takes the parent now, with one plain name more, is where the resolver took the whole before. */
  lemma LastNameAgrees(before: FS, now: FS, dir: seq<string>, base: string, budget: nat, kernel: nat)
    requires SameLinks(before, now) && Walk(Steps(before), [], dir + [base], budget).Resolved?
    requires Lookup(now, dir, kernel).Resolved? && IsCanonicalName(base)
    requires IsPlain(now(Lookup(now, dir, kernel).place + [base]))
    ensures Lookup(now, dir, kernel).place + [base] == Walk(Steps(before), [], dir + [base], budget).place
  {
    OneNameMore(now, dir, base, kernel);
    StepsAgree(before, now);
    WalksAgree(Steps(before), Steps(now), [], dir + [base], budget, kernel + 1);
  }

  /** The entry that a clean path leads to now, its last component not being a symlink, is the one the resolver named
      before, as long as no symlink has come or gone. */
  lemma EntryIsTheResolved(before: FS, now: FS, listen: string, kernel: nat)
    requires IsClean(listen) && Components(listen) != [] && Resolve(before, listen).Resolved?
    requires SameLinks(before, now) && Lookup(now, DirNames(listen), kernel).Resolved?
    requires IsPlain(now(Lookup(now, DirNames(listen), kernel).place + [BaseName(listen)]))
    ensures Lookup(now, DirNames(listen), kernel).place + [BaseName(listen)] == Resolve(before, listen).place
  {
    CleanSplit(listen);
    LastNameAgrees(before, now, DirNames(listen), BaseName(listen), MAX_PATH_COMPONENTS, kernel);
  }

  /** Whatever the filesystem looks like when the socket is published, as long as no symlink has come or gone since
      validation: the entry that is written is the one the resolver named, and neither the resolver nor the kernel
      takes the Docker path to it. */
  lemma PublishedEntryIsNotDockers(before: FS, now: FS, limit: nat, listen: string, docker: string, kernel: nat)
    requires AreApart(before, limit, listen, docker) && IsClean(listen) && Components(listen) != []
    requires SameLinks(before, now) && Lookup(now, DirNames(listen), kernel).Resolved?
    requires IsPlain(now(Lookup(now, DirNames(listen), kernel).place + [BaseName(listen)]))
    ensures var entry := Lookup(now, DirNames(listen), kernel).place + [BaseName(listen)];
            && entry == Resolve(before, listen).place != Resolve(before, docker).place
            && (Stat(now, docker, kernel).Resolved? ==> Stat(now, docker, kernel).place != entry)
  {
    EntryIsTheResolved(before, now, listen, kernel);
    if Stat(now, docker, kernel).Resolved? {
      ResolverAgreesWithKernel(before, now, docker, kernel);
    }
  }

  // ------------------------------------------------------------ what Listen changes

  /** Nothing that existed has changed, except perhaps at `entry`, and no symlink has come or gone. */
  ghost predicate Spares(fs: FS, fs': FS, entry: Place) {
    SameLinks(fs, fs') && forall q: Place :: Exists(fs(q)) && q != entry ==> fs'(q) == fs(q)
  }

  /** The filesystem once what was at `p` has been removed. */
  function Without(fs: FS, p: Place): FS {
    (q: Place) => if q == p || (p < q && fs(q).Failing?) then Missing else fs(q)
  }

  lemma SparesTransitive(a: FS, b: FS, c: FS, entry: Place)
    requires Spares(a, b, entry) && Spares(b, c, entry)
    ensures Spares(a, c, entry)
  {
    forall q: Place | a(q).Link? || c(q).Link?
      ensures a(q) == c(q)
    {
      assert b(q).Link? || c(q).Link? ==> b(q) == c(q);
      assert a(q).Link? || b(q).Link? ==> a(q) == b(q);
    }
  }

  lemma GrowSpares(fs: FS, now: FS, entry: Place, p: Place, node: Node)
    requires Spares(fs, now, entry) && now(p).Missing? && !node.Link?
    ensures Spares(fs, Grow(now, p, node), entry)
  {
    forall q: Place | fs(q).Link? || Grow(now, p, node)(q).Link?
      ensures fs(q) == Grow(now, p, node)(q)
    {
      assert fs(q).Link? || now(q).Link? ==> fs(q) == now(q);
    }
  }

  lemma WithoutSpares(fs: FS, now: FS, entry: Place, p: Place)
    requires Spares(fs, now, entry) && !now(p).Link? && (p == entry || !Exists(fs(p)))
    ensures Spares(fs, Without(now, p), entry)
  {
    forall q: Place | fs(q).Link? || Without(now, p)(q).Link?
      ensures fs(q) == Without(now, p)(q)
    {
      assert fs(q).Link? || now(q).Link? ==> fs(q) == now(q);
    }
  }

  /** A directory the kernel found is found again while the directories and links of the tree stay. */
  lemma DirectoryIsFoundAgain(fs: FS, fs': FS, entry: Place, names: seq<string>, limit: nat)
    requires Spares(fs, fs', entry) && entry != [] && !fs(entry).Directory?
    requires Lookup(fs, names, limit).Resolved? && IsDirectory(fs, Lookup(fs, names, limit).place)
    ensures Lookup(fs', names, limit) == Lookup(fs, names, limit)
  {
    var m, m' := KernelSteps(fs), KernelSteps(fs');
    forall at: Place, name: string
      ensures m(at, name).Stop? || m(at, name) == To(entry) || m'(at, name) == m(at, name)
    {
      var next := at + [name];
      assert fs(next).Link? || fs'(next).Link? ==> fs(next) == fs'(next);
    }
    DeadUnnoticed(m, m', entry, [], names, limit);
  }

  // ------------------------------------------- what Listen puts where nothing was

  /** The lock file of a socket. */
  function LockOf(entry: Place): Place
    requires entry != []
  {
    Parent(entry) + [entry[|entry| - 1] + LOCK_SUFFIX]
  }

  /** Listen at `entry` takes a place where there is nothing: it lies on the way, it is the entry or below it, or it is
      a lock file that is not there yet or below that. */
  predicate Claims(fs: FS, entry: Place, q: Place)
    requires entry != []
  {
    q <= Parent(entry) || entry <= q || (fs(LockOf(entry)).Missing? && LockOf(entry) <= q)
  }

  /** What Listen at `entry` makes of one place: the entry becomes a socket; what exists or cannot be looked at stays;
      what was missing becomes a directory on the way, a lock file, or cannot be looked up any more below either. */
  ghost predicate Placed(fs: FS, fs': FS, entry: Place, q: Place)
    requires entry != []
  {
    if q == entry then fs'(q).Socket?
    else if !fs(q).Missing? then fs'(q) == fs(q)
    else if q <= Parent(entry) then fs'(q).Directory?
    else if q == LockOf(entry) then fs'(q).Regular?
    else if Blocks(fs, entry, q) then fs'(q).Failing?
    else fs'(q).Missing?
  }

  /** The place lies below the entry, or below a lock file that is not there yet. */
  predicate Blocks(fs: FS, entry: Place, q: Place)
    requires entry != []
  {
    entry < q || (fs(LockOf(entry)).Missing? && LockOf(entry) < q)
  }

  /** So it is for every place. */
  ghost predicate Publication(fs: FS, fs': FS, entry: Place)
    requires entry != []
  {
    forall q: Place :: Placed(fs, fs', entry, q)
  }

  /** What a stale socket's removal does, if there is one. */
  ghost predicate Clears(fs: FS, fs': FS, entry: Place) {
    && (forall q: Place :: !(entry <= q) ==> fs'(q) == fs(q))
    && (forall q: Place :: entry < q ==> fs'(q) == fs(q) || (fs(q).Failing? && fs'(q).Missing?))
  }

  /** A lock file is created if there is nothing at its place. */
  function WithLock(fs: FS, lock: Place, ino: nat): FS {
    if fs(lock).Missing? then Grow(fs, lock, Regular(ino)) else fs
  }

  lemma LockAt(fs: FS, lock: Place, ino: nat, q: Place)
    ensures WithLock(fs, lock, ino)(q)
         == if !fs(lock).Missing? then fs(q)
            else if q == lock then Regular(ino)
            else if lock < q && fs(q).Missing? then Failing
            else fs(q)
  {
    if fs(lock).Missing? {
      assert WithLock(fs, lock, ino) == Grow(fs, lock, Regular(ino));
    }
  }

  lemma Siblings(dir: Place, a: string, b: string, q: Place)
    requires a != b
    ensures !(dir + [a] <= q && dir + [b] <= q) && !(dir + [a] <= dir + [b])
  {
    var x, y := dir + [a], dir + [b];
    assert x[|dir|] == a && y[|dir|] == b;
  }

  /** A staged socket that has been renamed to the entry, and its staging directory removed. */
  function Published(fs: FS, entry: Place, private: Place, ino: nat): FS {
    var staged := private + [STAGED_NAME];
    var f := Without(Grow(Grow(fs, private, Directory), staged, Socket(ino)), staged);
    Without(Grow(f, entry, Socket(ino)), private)
  }

  /** The staging directory is a sibling of the entry, and there is nothing at it yet. */
  ghost predicate CanStage(fs: FS, entry: Place, private: Place) {
    && entry != [] && private != [] && Parent(private) == Parent(entry) && private != entry
    && fs(private).Missing? && fs(private + [STAGED_NAME]).Missing?
  }

  lemma PublishAt(fs: FS, entry: Place, private: Place, ino: nat, q: Place)
    requires CanStage(fs, entry, private)
    ensures var fs' := Published(fs, entry, private, ino);
            && (q == entry ==> fs'(q) == Socket(ino))
            && (entry < q ==> fs'(q) == if fs(q).Missing? then Failing else fs(q))
            && (private <= q && fs(q).Missing? ==> fs'(q).Missing?)
            && (!(entry <= q) && !(private <= q) ==> fs'(q) == fs(q))
  {
    LastOf(entry);
    LastOf(private);
    Siblings(Parent(entry), entry[|entry| - 1], private[|private| - 1], q);
  }

  /** What there is to stage at was free from the start. */
  lemma StagedIsFree(f1: FS, f2: FS, f3: FS, entry: Place, private: Place, ino: nat)
    requires entry != [] && f2 == WithLock(f1, LockOf(entry), ino) && Clears(f2, f3, entry)
    requires CanStage(f3, entry, private)
    ensures f1(private).Missing? && private[|private| - 1] != entry[|entry| - 1] + LOCK_SUFFIX
  {
    LastOf(entry);
    LastOf(private);
    Siblings(Parent(entry), entry[|entry| - 1], private[|private| - 1], private);
    LockAt(f1, LockOf(entry), ino, private);
  }

  /** One place through the three stages of Listen in a directory that is there: lock, removal, publication. */
  lemma StagesAt(f1: FS, f2: FS, f3: FS, entry: Place, private: Place, ino: nat, ino': nat, q: Place)
    requires IsTree(f1) && entry != [] && WayIsThere(f1, Parent(entry))
    requires f2 == WithLock(f1, LockOf(entry), ino) && Clears(f2, f3, entry) && CanStage(f3, entry, private)
    ensures Placed(f1, Published(f3, entry, private, ino'), entry, q)
  {
    var dir, name := Parent(entry), entry[|entry| - 1];
    LastOf(entry);
    LastOf(private);
    StagedIsFree(f1, f2, f3, entry, private, ino);
    Siblings(dir, name, name + LOCK_SUFFIX, q);
    Siblings(dir, private[|private| - 1], name + LOCK_SUFFIX, q);
    LockAt(f1, LockOf(entry), ino, q);
    PublishAt(f3, entry, private, ino', q);
    if private <= q {
      assert private < q || q == private;
      Siblings(dir, name, private[|private| - 1], q);
    }
  }

  lemma StagesPublish(f1: FS, f2: FS, f3: FS, entry: Place, private: Place, ino: nat, ino': nat)
    requires IsTree(f1) && entry != [] && WayIsThere(f1, Parent(entry))
    requires f2 == WithLock(f1, LockOf(entry), ino) && Clears(f2, f3, entry) && CanStage(f3, entry, private)
    ensures Publication(f1, Published(f3, entry, private, ino'), entry)
  {
    forall q: Place
      ensures Placed(f1, Published(f3, entry, private, ino'), entry, q)
    {
      StagesAt(f1, f2, f3, entry, private, ino, ino', q);
    }
  }

  /** Directories first, then the rest. */
  lemma WayAndEntry(f0: FS, f1: FS, f2: FS, entry: Place)
    requires entry != [] && FillsWay(f0, f1, Parent(entry)) && Publication(f1, f2, entry)
    ensures Publication(f0, f2, entry)
  {
    var lock := LockOf(entry);
    assert !(lock <= Parent(entry)) && f1(lock) == f0(lock);
    forall q: Place
      ensures Placed(f0, f2, entry, q)
    {
      assert Placed(f1, f2, entry, q);
    }
  }

  // ----------------------------------------------- how paths resolve once it has published

  /** The names whose lookup publication turns into an error. */
  ghost function Obstructs(fs: FS, entry: Place): (Place, string) -> bool
    requires entry != []
  {
    (at: Place, name: string) =>
      !IsDots(name) && fs(at + [name]).Missing? && at + [name] != entry && Blocks(fs, entry, at + [name])
  }

  lemma PublicationBlocks(fs: FS, fs': FS, entry: Place)
    requires entry != [] && Publication(fs, fs', entry) && (fs(entry).Missing? || fs(entry).Socket?)
    ensures IsBlocked(Steps(fs), Obstructs(fs, entry), Steps(fs'))
  {
    forall at: Place, name: string
      ensures Steps(fs')(at, name) == if Obstructs(fs, entry)(at, name) then Stop(Denied) else Steps(fs)(at, name)
    {
      var next := at + [name];
      assert Placed(fs, fs', entry, next);
    }
  }

  /** What a path resolves to stays as it was exactly if resolving it looks up nothing that is missing below the entry
      or a new lock file; otherwise it becomes an error, never another place. */
  lemma PublicationAndPaths(fs: FS, fs': FS, entry: Place, path: string)
    requires entry != [] && Publication(fs, fs', entry) && (fs(entry).Missing? || fs(entry).Socket?)
    requires Resolve(fs, path).Resolved?
    ensures var probes := Meets(Steps(fs), Obstructs(fs, entry), [], Components(path), MAX_PATH_COMPONENTS);
            Resolve(fs', path) == if probes then Failed(Denied) else Resolve(fs, path)
  {
    PublicationBlocks(fs, fs', entry);
    BlockedWalk(Steps(fs), Obstructs(fs, entry), Steps(fs'), [], Components(path), MAX_PATH_COMPONENTS);
  }

  /** A clean path whose directory the kernel finds resolves as it did. */
  lemma CleanPathStays(before: FS, now: FS, listen: string, kernel: nat)
    requires IsClean(listen) && Components(listen) != [] && Resolve(before, listen).Resolved?
    requires SameLinks(before, now) && Lookup(now, DirNames(listen), kernel).Resolved?
    requires IsPlain(now(Lookup(now, DirNames(listen), kernel).place + [BaseName(listen)]))
    ensures Resolve(now, listen) == Resolve(before, listen)
  {
    CleanSplit(listen);
    OneNameMore(now, DirNames(listen), BaseName(listen), kernel);
    StepsAgree(before, now);
    WalksCostTheSame(Steps(before), Steps(now), [], Components(listen), MAX_PATH_COMPONENTS, kernel + 1);
  }

  lemma RemovalClears(fs: FS, fs': FS, entry: Place)
    requires fs' == fs || fs' == Without(fs, entry)
    ensures Clears(fs, fs', entry)
  {
    if fs' != fs {
      forall q: Place
        ensures !(entry <= q) ==> fs'(q) == fs(q)
        ensures entry < q ==> fs'(q) == fs(q) || (fs(q).Failing? && fs'(q).Missing?)
      {
        assert entry < q || q == entry ==> entry <= q;
      }
    }
  }

  /** Nothing stands in the way of a socket at a name in a directory: the lock can be had, the entry is free or held by
      a socket that refuses connections, and the staging directory is free and has another name. */
  predicate CanPublish(fs: FS, dir: Place, base: string, lockFree: bool, refused: bool, staging: string) {
    var entry, lock, private := dir + [base], dir + [base + LOCK_SUFFIX], dir + [staging];
    && base != "" && lockFree && (fs(lock).Missing? || fs(lock).Regular?)
    && (fs(entry).Missing? || (fs(entry).Socket? && refused))
    && staging != base && staging != base + LOCK_SUFFIX
    && fs(private).Missing? && fs(private + [STAGED_NAME]).Missing?
  }

  /** And the directory is there, or can be made. */
  ghost predicate CanListen(fs: FS, dirNames: seq<string>, limit: nat, base: string, lockFree: bool, refused: bool,
                            staging: string) {
    exists dir: Place :: CanMake(fs, dirNames, limit, dir, 0) && CanPublish(fs, dir, base, lockFree, refused, staging)
  }

  /** Lock and removal leave the staging place as it is, if it has another name. */
  lemma StagingStays(f1: FS, f2: FS, f3: FS, dir: Place, base: string, staging: string, ino: nat)
    requires f2 == WithLock(f1, dir + [base + LOCK_SUFFIX], ino) && Clears(f2, f3, dir + [base])
    requires staging != base && staging != base + LOCK_SUFFIX
    ensures var private := dir + [staging];
            f3(private) == f1(private) && f3(private + [STAGED_NAME]) == f1(private + [STAGED_NAME])
  {
    var private := dir + [staging];
    StagingStaysAt(f1, f2, f3, dir, base, staging, ino, private);
    StagingStaysAt(f1, f2, f3, dir, base, staging, ino, private + [STAGED_NAME]);
  }

  lemma StagingStaysAt(f1: FS, f2: FS, f3: FS, dir: Place, base: string, staging: string, ino: nat, q: Place)
    requires f2 == WithLock(f1, dir + [base + LOCK_SUFFIX], ino) && Clears(f2, f3, dir + [base])
    requires staging != base && staging != base + LOCK_SUFFIX && dir + [staging] <= q
    ensures f3(q) == f1(q)
  {
    Siblings(dir, staging, base, q);
    Siblings(dir, staging, base + LOCK_SUFFIX, q);
    LockAt(f1, dir + [base + LOCK_SUFFIX], ino, q);
  }

  /** A lock that is there takes the name of the staging directory; so does the entry. */
  lemma StagingClashes(f1: FS, f2: FS, f3: FS, dir: Place, base: string, ino: nat)
    requires f2 == WithLock(f1, dir + [base + LOCK_SUFFIX], ino) && Clears(f2, f3, dir + [base])
    ensures !f3(dir + [base + LOCK_SUFFIX]).Missing?
    ensures f2(dir + [base]) == f1(dir + [base])
  {
    Siblings(dir, base, base + LOCK_SUFFIX, dir + [base]);
    Siblings(dir, base, base + LOCK_SUFFIX, dir + [base + LOCK_SUFFIX]);
    LockAt(f1, dir + [base + LOCK_SUFFIX], ino, dir + [base]);
    LockAt(f1, dir + [base + LOCK_SUFFIX], ino, dir + [base + LOCK_SUFFIX]);
  }

  /** Directories made on the way change none of this. */
  lemma WayKeepsCanPublish(f0: FS, f1: FS, dir: Place, base: string, lockFree: bool, refused: bool, staging: string)
    requires FillsWay(f0, f1, dir)
    ensures CanPublish(f1, dir, base, lockFree, refused, staging)
         == CanPublish(f0, dir, base, lockFree, refused, staging)
  {
    assert f1(dir + [base]) == f0(dir + [base]) && f1(dir + [base + LOCK_SUFFIX]) == f0(dir + [base + LOCK_SUFFIX]);
    assert f1(dir + [staging]) == f0(dir + [staging]);
    assert f1(dir + [staging] + [STAGED_NAME]) == f0(dir + [staging] + [STAGED_NAME]);
  }

  /** One filesystem, changed by one process at a time. */
  class Disk {
    var fs: FS
    /** Inode numbers from here on have never been used. */
    var nextIno: nat
    const limit: nat

    ghost predicate Valid()
      reads this
    {
      forall q: Place :: (fs(q).Socket? || fs(q).Regular?) ==> fs(q).ino < nextIno
    }

    /** Creates one directory in a directory that is found, if nothing has its name. */
    method Mkdir(names: seq<string>) returns (r: Made)
      requires Valid() && names != []
      modifies `fs
      ensures Valid() && IsMkdir(old(fs), fs, names, limit, r)
    {
      var dir := Lookup(fs, Parent(names), limit);
      if !dir.Resolved? || !IsDirectory(fs, dir.place) {
        return NotMade;
      }
      var p := dir.place + [names[|names| - 1]];
      match fs(p)
      case Missing =>
        fs := Grow(fs, p, Directory);
        return Created;
      case Failing =>
        return NotMade;
      case _ =>
        return AlreadyThere;
    }

    /** Creates a directory and its missing parents; one that is there already is left as it is. What it changes are
        places where there was nothing, and those become directories. */
    method CreateSocketDir(names: seq<string>) returns (ok: bool)
      requires Valid()
      modifies `fs
      ensures Valid()
      ensures forall q: Place :: fs(q) != old(fs)(q) ==> old(fs)(q).Missing? && fs(q).Directory?
      ensures Lookup(old(fs), names, limit).Resolved? ==>
                fs == old(fs) && ok == IsDirectory(fs, Lookup(fs, names, limit).place)
      ensures var info := Lookup(old(fs), names, limit);
              !info.Resolved? && info != Failed(NotFound) ==> !ok && fs == old(fs)
      ensures ok && IsTree(old(fs)) && AreCanonical(names) && Lookup(fs, names, limit).Resolved? ==>
                MadeOnTheWay(old(fs), fs, Lookup(fs, names, limit).place)
      ensures IsTree(old(fs)) && AreCanonical(names) ==> MakesExactly(old(fs), fs, ok, names, limit)
      decreases |names|
    {
      var info := Lookup(fs, names, limit);
      if info != Failed(NotFound) && AreCanonical(names) {
        NothingToMake(fs, names, limit);
      }
      if info.Resolved? {
        return IsDirectory(fs, info.place);
      }
      if info != Failed(NotFound) {
        return false;
      }
      assert names != [];
      ok := CreateSocketDir(Parent(names));
      if !ok {
        if IsTree(old(fs)) && AreCanonical(names) {
          NoParents(old(fs), fs, names, limit);
        }
        return;
      }
      ghost var parents := fs;
      var made := Mkdir(names);
      MadeAfterParents(old(fs), parents, fs, names, limit, made);
      if IsTree(old(fs)) && AreCanonical(names) {
        MakesAfterParents(old(fs), parents, fs, names, limit, made);
      }
      return made != NotMade;
    }

    /** `private` stands for the ownership and permission checks, `lockFree` for the flock, `refused` for a refused
        connection to a socket found at the path, and `staging` for the random name of the staging directory.
        `entry` is the place the path leads to, once it is known. */
    method Listen(path: string, private: bool, lockFree: bool, refused: bool, staging: string)
      returns (ok: bool, entry: Place)
      requires Valid()
      modifies this
      ensures Valid() && Spares(old(fs), fs, entry)
      ensures ok ==>
                && IsClean(path) && Components(path) != []
                && Lookup(fs, DirNames(path), limit).Resolved?
                && entry == Lookup(fs, DirNames(path), limit).place + [BaseName(path)]
                && (exists ino :: old(nextIno) <= ino < nextIno && fs(entry) == Socket(ino))
                && (Exists(old(fs)(entry)) ==> old(fs)(entry).Socket? && refused)
      ensures !ok && Exists(old(fs)(entry)) && fs(entry) != old(fs)(entry) ==> old(fs)(entry).Socket? && refused
      ensures ok && IsTree(old(fs)) ==> Publication(old(fs), fs, entry)
      ensures IsTree(old(fs)) ==>
                (ok <==> && IsClean(path) && private
                         && CanListen(old(fs), DirNames(path), limit, BaseName(path), lockFree, refused, staging))
    {
      ok, entry := false, [];
      if !IsClean(path) {
        return;
      }
      CleanNames(path);
      ok, entry := ListenIn(DirNames(path), BaseName(path), private, lockFree, refused, staging);
    }

    /** Listen at a name in a directory. The root has no name, and is found not to be a socket. */
    method ListenIn(dirNames: seq<string>, base: string, private: bool, lockFree: bool, refused: bool, staging: string)
      returns (ok: bool, entry: Place)
      requires Valid()
      modifies this
      ensures Valid() && Spares(old(fs), fs, entry)
      ensures ok ==>
                && base != "" && Lookup(fs, dirNames, limit).Resolved?
                && entry == Lookup(fs, dirNames, limit).place + [base]
                && (exists ino :: old(nextIno) <= ino < nextIno && fs(entry) == Socket(ino))
                && (Exists(old(fs)(entry)) ==> old(fs)(entry).Socket? && refused)
      ensures !ok && Exists(old(fs)(entry)) && fs(entry) != old(fs)(entry) ==> old(fs)(entry).Socket? && refused
      ensures ok && entry != [] && IsTree(old(fs)) && AreCanonical(dirNames) ==> Publication(old(fs), fs, entry)
      ensures IsTree(old(fs)) && AreCanonical(dirNames) ==>
                (ok <==> private && CanListen(old(fs), dirNames, limit, base, lockFree, refused, staging))
    {
      ok, entry := false, [];
      var made := CreateSocketDir(dirNames);
      if !made {
        return;
      }
      var dir := Lookup(fs, dirNames, limit);
      if !dir.Resolved? || !IsDirectory(fs, dir.place) || !private {
        return;
      }
      ghost var start := fs;
      entry := dir.place + [base];
      if IsTree(old(fs)) && AreCanonical(dirNames) {
        WayIsFilled(old(fs), start, dirNames, limit);
        WayKeepsTree(old(fs), start, dir.place);
        WayKeepsCanPublish(old(fs), start, dir.place, base, lockFree, refused, staging);
        assert Finds(start, dirNames, limit, dir.place, 0);
      }
      ok := ListenAt(dir.place, base, lockFree, refused, staging);
      SparesTransitive(old(fs), start, fs, entry);
      if ok {
        DirectoryIsFoundAgain(start, fs, entry, dirNames, limit);
      }
      if ok && IsTree(old(fs)) && AreCanonical(dirNames) {
        assert Parent(entry) == dir.place;
        WayAndEntry(old(fs), start, fs, entry);
      }
    }

    /** Listen at a name in a directory that the kernel has found. */
    method ListenAt(dir: Place, base: string, lockFree: bool, refused: bool, staging: string) returns (ok: bool)
      requires Valid()
      modifies this
      ensures Valid() && Spares(old(fs), fs, dir + [base])
      ensures var entry := dir + [base];
              && (ok ==>
                    && base != "" && !old(fs)(entry).Directory?
                    && (IsTree(old(fs)) && WayIsThere(old(fs), dir) ==> Publication(old(fs), fs, entry))
                    && (exists ino :: old(nextIno) <= ino < nextIno && fs(entry) == Socket(ino)))
              && (Exists(old(fs)(entry)) && (ok || fs(entry) != old(fs)(entry)) ==> old(fs)(entry).Socket? && refused)
      ensures ok <==> CanPublish(old(fs), dir, base, lockFree, refused, staging)
    {
      var entry := dir + [base];
      ok := AcquireInstanceLock(dir + [base + LOCK_SUFFIX], lockFree);
      ok := ok && base != "";
      ghost var locked := fs;
      StagingClashes(old(fs), locked, locked, dir, base, old(nextIno));
      if ok {
        ok := RemoveStaleSocket(entry, refused);
        SparesTransitive(old(fs), locked, fs, entry);
        RemovalClears(locked, fs, entry);
      }
      if ok {
        ghost var clear, ino := fs, nextIno;
        StagingClashes(old(fs), locked, clear, dir, base, old(nextIno));
        if staging != base && staging != base + LOCK_SUFFIX {
          StagingStays(old(fs), locked, clear, dir, base, staging, old(nextIno));
        }
        assert Parent(entry) == dir && LockOf(entry) == dir + [base + LOCK_SUFFIX];
        ok := BindAndPublish(entry, dir, staging);
        SparesTransitive(old(fs), clear, fs, entry);
        if ok && IsTree(old(fs)) && WayIsThere(old(fs), dir) {
          StagesPublish(old(fs), locked, clear, entry, dir + [staging], old(nextIno), ino);
        }
      }
    }

    /** Open or create the lock file, which must be a regular file. */
    method AcquireInstanceLock(lock: Place, lockFree: bool) returns (ok: bool)
      requires Valid()
      modifies this
      ensures Valid() && nextIno >= old(nextIno)
      ensures forall e: Place :: Spares(old(fs), fs, e)
      ensures ok ==> lockFree && fs(lock).Regular?
      ensures ok <==> lockFree && (old(fs)(lock).Missing? || old(fs)(lock).Regular?)
      ensures fs == WithLock(old(fs), lock, old(nextIno))
      ensures forall q: Place :: fs(q) != old(fs)(q) ==> old(fs)(q).Missing? && !fs(q).Directory? && !fs(q).Socket?
    {
      if fs(lock).Missing? {
        fs, nextIno := Grow(fs, lock, Regular(nextIno)), nextIno + 1;
      }
      return fs(lock).Regular? && lockFree;
    }

    /** Only a socket whose listener is gone is removed. */
    method RemoveStaleSocket(entry: Place, refused: bool) returns (ok: bool)
      requires Valid()
      modifies `fs
      ensures Valid() && Spares(old(fs), fs, entry)
      ensures ok ==> !Exists(fs(entry)) && (Exists(old(fs)(entry)) ==> old(fs)(entry).Socket? && refused)
      ensures !ok ==> fs == old(fs)
      ensures fs == old(fs) || fs == Without(old(fs), entry)
      ensures ok <==> old(fs)(entry).Missing? || (old(fs)(entry).Socket? && refused)
      ensures ok ==> fs(entry).Missing?
    {
      if fs(entry).Missing? {
        return true;
      }
      if !fs(entry).Socket? || !refused {
        return false;
      }
      WithoutSpares(fs, fs, entry, entry);
      fs := Without(fs, entry);
      return true;
    }

    /** A listening socket in a directory of its own, out of anyone's way. */
    method Stage(private: Place, entry: Place) returns (ok: bool)
      requires Valid()
      modifies this
      ensures Valid() && (!ok ==> fs == old(fs) && nextIno == old(nextIno))
      ensures ok <==> old(fs)(private).Missing? && old(fs)(private + [STAGED_NAME]).Missing?
      ensures ok ==>
                var staged := private + [STAGED_NAME];
                && old(fs)(private).Missing? && old(fs)(staged).Missing? && nextIno == old(nextIno) + 1
                && fs == Grow(Grow(old(fs), private, Directory), staged, Socket(old(nextIno)))
                && Spares(old(fs), fs, entry)
    {
      var staged := private + [STAGED_NAME];
      if !fs(private).Missing? || !fs(staged).Missing? {
        return false;
      }
      GrowSpares(fs, fs, entry, private, Directory);
      fs := Grow(fs, private, Directory);
      GrowSpares(old(fs), fs, entry, staged, Socket(nextIno));
      fs, nextIno := Grow(fs, staged, Socket(nextIno)), nextIno + 1;
      return true;
    }

    /** Stage a listening socket, and rename it to the entry if nothing is there. */
    method BindAndPublish(entry: Place, dir: Place, staging: string) returns (ok: bool)
      requires Valid()
      modifies this
      ensures Valid() && Spares(old(fs), fs, entry)
      ensures if ok then old(fs)(entry).Missing? && nextIno == old(nextIno) + 1 && fs(entry) == Socket(old(nextIno))
              else nextIno >= old(nextIno) && (Exists(old(fs)(entry)) ==> fs(entry) == old(fs)(entry))
      ensures ok && entry != [] && Parent(entry) == dir ==>
                && CanStage(old(fs), entry, dir + [staging])
                && fs == Published(old(fs), entry, dir + [staging], old(nextIno))
      ensures entry != [] && Parent(entry) == dir && old(fs)(entry).Missing? ==>
                (ok <==> CanStage(old(fs), entry, dir + [staging]))
    {
      var private := dir + [staging];
      var staged := private + [STAGED_NAME];
      ghost var start := fs;
      var ino := nextIno;
      ok := Stage(private, entry);
      if !ok {
        return;
      }
      ok := fs(entry).Missing?;
      WithoutSpares(start, fs, entry, staged);
      fs := Without(fs, staged);
      if ok {
        GrowSpares(start, fs, entry, entry, Socket(ino));
        fs := Grow(fs, entry, Socket(ino));
      }
      WithoutSpares(start, fs, entry, private);
      fs := Without(fs, private);
    }

    /** Start-up: the paths are validated, then the socket is published. If both succeed, the new socket is not where
        the Docker path leads. Whatever exists there is untouched; where nothing exists yet, the place is left so
        exactly if publishing does not claim it for a directory, the lock file or the socket. */
    method ValidateAndListen(listen: string, docker: string, private: bool, lockFree: bool, refused: bool,
                             staging: string)
      returns (ok: bool, entry: Place)
      requires Valid()
      modifies this
      ensures Valid()
      ensures ok ==>
                && AreApart(old(fs), limit, listen, docker) && fs(entry).Socket?
                && entry != [] && entry == Resolve(old(fs), listen).place
                && var place := Resolve(old(fs), docker).place;
                   && place != entry
                   && (Stat(fs, docker, limit).Resolved? ==> Stat(fs, docker, limit).place != entry)
                   && (Exists(old(fs)(place)) ==> fs(place) == old(fs)(place))
                   && Resolve(fs, listen) == Resolve(old(fs), listen)
                   && (IsTree(old(fs)) ==>
                         && (fs(place) == old(fs)(place) <==>
                             Exists(old(fs)(place)) || !Claims(old(fs), entry, place))
                         && Resolve(fs, docker) == if Meets(Steps(old(fs)), Obstructs(old(fs), entry), [],
                                                            Components(docker), MAX_PATH_COMPONENTS)
                                                   then Failed(Denied) else Resolve(old(fs), docker))
      ensures IsTree(old(fs)) ==>
                (ok <==> && AreApart(old(fs), limit, listen, docker) && IsClean(listen) && private
                         && CanListen(old(fs), DirNames(listen), limit, BaseName(listen), lockFree, refused, staging))
    {
      ok, entry := false, [];
      var verdict := ValidatePaths(fs, limit, listen, docker);
      if !verdict.Accepted? {
        return;
      }
      ok, entry := Listen(listen, private, lockFree, refused, staging);
      if ok {
        PublishedEntryIsNotDockers(old(fs), fs, limit, listen, docker, limit);
        ResolvedIsPlain(old(fs), listen);
        ResolvedIsPlain(old(fs), docker);
        CleanPathStays(old(fs), fs, listen, limit);
        if IsTree(old(fs)) {
          assert Placed(old(fs), fs, entry, Resolve(old(fs), docker).place);
          PublicationAndPaths(old(fs), fs, entry, docker);
        }
      }
    }
  }

  /** A path resolves to something that exists or is missing, never to what cannot be looked at. */
  lemma ResolvedIsPlain(fs: FS, path: string)
    requires Resolve(fs, path).Resolved?
    ensures var place := Resolve(fs, path).place; place == [] || IsPlain(fs(place))
  {
    ResolveIsCanonical(fs, path);
    var place := Resolve(fs, path).place;
    assert place[..|place|] == place;
  }
}
