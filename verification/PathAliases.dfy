/** What stays true of resolved paths while the filesystem changes, how the kernel resolves the same paths (section
    4.13 of POSIX.1-2017, Base Definitions), and what `ValidatePaths` of internal/gangway/socketpath.go gets from it. */
module PathAliases {
  import opened Text
  import opened PathWalk
  import opened PathResolution

  /** Neither filesystem has a symlink that the other does not have at the same place with the same target. */
  ghost predicate SameLinks(fs: FS, fs': FS) {
    forall q: Place :: fs(q).Link? || fs'(q).Link? ==> fs(q) == fs'(q)
  }

  lemma StepsAgree(fs: FS, fs': FS)
    requires SameLinks(fs, fs')
    ensures AgreeUnlessStopped(Steps(fs), Steps(fs'))
  {
    forall at: Place, name: string
      ensures var m, m' := Steps(fs)(at, name), Steps(fs')(at, name); m.Stop? || m'.Stop? || m == m'
    {
      var next := at + [name];
      assert fs(next).Link? || fs'(next).Link? ==> fs(next) == fs'(next);
    }
  }

  /** Whatever is created or removed, as long as no symlink is, a path that still resolves still resolves to the same
      place; so two paths that resolve to different places never come to resolve to one. */
  lemma ResolutionOutlivesChange(fs: FS, fs': FS, path: string)
    requires SameLinks(fs, fs') && Resolve(fs, path).Resolved? && Resolve(fs', path).Resolved?
    ensures Resolve(fs', path) == Resolve(fs, path)
  {
    StepsAgree(fs, fs');
    BothResolve(Steps(fs), Steps(fs'), [], Components(path), MAX_PATH_COMPONENTS);
  }

  // ------------------------------------------------------------------- growth

  /** The filesystem once `node` has been created at `p`: what would lie below a file that is no directory cannot be
      looked up any more. */
  function Grow(fs: FS, p: Place, node: Node): FS {
    (q: Place) => if q == p then node else if !node.Directory? && p < q && fs(q).Missing? then Failing else fs(q)
  }

  /** Creating a directory where there was nothing changes no resolution at all. */
  lemma DirectoriesChangeNothing(fs: FS, p: Place, path: string)
    requires fs(p).Missing?
    ensures Resolve(Grow(fs, p, Directory), path) == Resolve(fs, path)
  {
    SameMoves(Steps(Grow(fs, p, Directory)), Steps(fs), [], Components(path), MAX_PATH_COMPONENTS);
  }

  /** Names whose lookup falls strictly below `p`. */
  ghost function Below(p: Place): (Place, string) -> bool {
    (at: Place, name: string) => !IsDots(name) && p < at + [name]
  }

  lemma FileBlocksBelow(fs: FS, p: Place, node: Node)
    requires fs(p).Missing? && (forall q: Place :: p < q ==> fs(q).Missing?)
    requires node.Socket? || node.Regular?
    ensures IsBlocked(Steps(fs), Below(p), Steps(Grow(fs, p, node)))
  {
    forall at: Place, name: string
      ensures Steps(Grow(fs, p, node))(at, name) == if Below(p)(at, name) then Stop(Denied) else Steps(fs)(at, name)
    {
      var next := at + [name];
      assert p < next ==> fs(next).Missing? && Grow(fs, p, node)(next) == Failing;
    }
  }

  /** Creating a socket or another file at `p`, where there was nothing, leaves the resolution of a path as it was
      exactly if resolving it looks up nothing below `p`; otherwise it turns it into an error, never into another
      place. */
  lemma StableIffNothingBelow(fs: FS, p: Place, node: Node, path: string)
    requires fs(p).Missing? && (forall q: Place :: p < q ==> fs(q).Missing?)
    requires (node.Socket? || node.Regular?) && Resolve(fs, path).Resolved?
    ensures var probes := Meets(Steps(fs), Below(p), [], Components(path), MAX_PATH_COMPONENTS);
            && (Resolve(Grow(fs, p, node), path) == Resolve(fs, path) <==> !probes)
            && (Resolve(Grow(fs, p, node), path) == Failed(Denied) <==> probes)
  {
    FileBlocksBelow(fs, p, node);
    BlockedWalk(Steps(fs), Below(p), Steps(Grow(fs, p, node)), [], Components(path), MAX_PATH_COMPONENTS);
  }

  lemma OneName(m: Moves, blocked: (Place, string) -> bool, at: Place, name: string, rest: seq<string>, budget: nat)
    requires m(at, name).To?
    ensures Walk(m, at, [name] + rest, budget + 1) == Walk(m, m(at, name).place, rest, budget)
    ensures Meets(m, blocked, at, [name] + rest, budget + 1) <==>
            blocked(at, name) || Meets(m, blocked, m(at, name).place, rest, budget)
  {
    assert ([name] + rest)[1..] == rest;
  }

  /** A path can pass below its own end and come back by "..": creating the very socket it resolves to then turns its
      resolution into an error. */
  lemma SocketCanBlockItsOwnPath() returns (fs: FS, p: Place, path: string)
    ensures Resolve(fs, path).Resolved? && Resolve(fs, path).place == p && fs(p).Missing?
    ensures Resolve(Grow(fs, p, Socket(0)), path) == Failed(Denied)
  {
    fs, p := (place: Place) => Missing, ["x"];
    var names := ["x"] + (["y"] + ([".."] + []));
    path := Render(names);
    ComponentsOfRender(names);
    var m, y := Steps(fs), p + ["y"];
    assert m([], "x") == To(p) && m(p, "y") == To(y) && m(y, "..") == To(p) by {
      assert [] + ["x"] == p && Parent(y) == p;
    }
    OneName(m, Below(p), [], "x", ["y"] + ([".."] + []), MAX_PATH_COMPONENTS - 1);
    OneName(m, Below(p), p, "y", [".."] + [], MAX_PATH_COMPONENTS - 2);
    OneName(m, Below(p), y, "..", [], MAX_PATH_COMPONENTS - 3);
    StableIffNothingBelow(fs, p, Socket(0), path);
  }

  // ------------------------------------------------------------- the kernel's walk

  predicate IsDirectory(fs: FS, place: Place) {
    place == [] || fs(place).Directory?
  }

  /** The names the kernel applies for a path or for what a link holds: a slash at the end demands a directory, as a
      "." there would. */
  function KernelNames(path: string): seq<string> {
    Components(path) + if HasSuffix(path, "/") then ["."] else []
  }

  /** What the kernel does with one name: it is applied to a directory that exists, and must exist unless it is a dot
      name. */
  function KernelAdvance(fs: FS, at: Place, name: string): Move {
    if !IsDirectory(fs, at) then Stop(Denied)
    else if name == "." then To(at)
    else if name == ".." then To(if at == [] then [] else at[..|at| - 1])
    else
      match fs(at + [name])
      case Missing => Stop(NotFound)
      case Failing | BadLink => Stop(Denied)
      case Link(target) => Expand(if IsAbs(target) then [] else at, KernelNames(target))
      case Directory | Socket(_) | Regular(_) => To(at + [name])
  }

  function KernelSteps(fs: FS): Moves {
    (at: Place, name: string) => KernelAdvance(fs, at, name)
  }

  /** Pathname resolution by the kernel. `limit` stands for its own bound. */
  function Lookup(fs: FS, names: seq<string>, limit: nat): Outcome {
    Walk(KernelSteps(fs), [], names, limit)
  }

  /** In a directory, "." is passed over, and ".." stays at the root; */
  lemma KernelDots(fs: FS, at: Place, rest: seq<string>, budget: nat)
    requires at == [] || fs(at).Directory?
    ensures Walk(KernelSteps(fs), at, ["."] + rest, budget + 1) == Walk(KernelSteps(fs), at, rest, budget)
    ensures Walk(KernelSteps(fs), [], [".."] + rest, budget + 1) == Walk(KernelSteps(fs), [], rest, budget)
  {
    StepTo(KernelSteps(fs), at, ".", rest, budget);
    StepTo(KernelSteps(fs), [], "..", rest, budget);
  }

  /** elsewhere ".." undoes the name of a directory. */
  lemma KernelDotDotUndoes(fs: FS, at: Place, name: string, rest: seq<string>, budget: nat)
    requires IsDirectory(fs, at) && IsCanonicalName(name) && fs(at + [name]).Directory?
    ensures Walk(KernelSteps(fs), at, [name, ".."] + rest, budget + 2) == Walk(KernelSteps(fs), at, rest, budget)
  {
    KernelEnters(fs, at, name, [".."] + rest, budget + 1);
    assert [name, ".."] + rest == [name] + ([".."] + rest);
    assert (at + [name])[..|at|] == at;
    StepTo(KernelSteps(fs), at + [name], "..", rest, budget);
  }

  /** What exists in a directory is entered, unless it is a symlink, */
  lemma KernelEnters(fs: FS, at: Place, name: string, rest: seq<string>, budget: nat)
    requires IsDirectory(fs, at) && IsCanonicalName(name)
    requires IsPlain(fs(at + [name])) && !fs(at + [name]).Missing?
    ensures Walk(KernelSteps(fs), at, [name] + rest, budget + 1) == Walk(KernelSteps(fs), at + [name], rest, budget)
  {
    StepTo(KernelSteps(fs), at, name, rest, budget);
  }

  /** which stands for its target, read from the root or from the directory that holds the link. */
  lemma KernelFollows(fs: FS, at: Place, name: string, target: string, rest: seq<string>, budget: nat)
    requires IsDirectory(fs, at) && IsCanonicalName(name) && fs(at + [name]) == Link(target)
    ensures var base := if target != "" && target[0] == '/' then [] else at;
            Walk(KernelSteps(fs), at, [name] + rest, budget + 1)
            == Walk(KernelSteps(fs), base, KernelNames(target) + rest, budget)
  {
    KernelExpands(fs, at, name, target);
    StepExpand(KernelSteps(fs), at, name, rest, budget);
  }

  lemma KernelExpands(fs: FS, at: Place, name: string, target: string)
    requires IsDirectory(fs, at) && IsCanonicalName(name) && fs(at + [name]) == Link(target)
    ensures KernelSteps(fs)(at, name)
         == Expand(if target != "" && target[0] == '/' then [] else at, KernelNames(target))
  {
  }

  /** Only a name that is missing from a directory is "not found"; no name can be looked up in anything but a
      directory. */
  lemma KernelErrors(fs: FS, at: Place, name: string, rest: seq<string>, budget: nat)
    requires || (at != [] && !fs(at).Directory?)
             || (IsCanonicalName(name) && var node := fs(at + [name]); node.Missing? || node.Failing? || node.BadLink?)
    ensures Walk(KernelSteps(fs), at, [name] + rest, budget + 1)
         == Failed(if (at == [] || fs(at).Directory?) && fs(at + [name]).Missing? then NotFound else Denied)
  {
    StepStop(KernelSteps(fs), at, name, rest, budget);
  }

  lemma KernelPads(fs: FS)
    ensures Pads(Steps(fs), KernelSteps(fs), ".")
  {
    forall at: Place, name: string
      ensures match KernelSteps(fs)(at, name)
              case Stop(_) => true
              case To(_) => Steps(fs)(at, name) == KernelSteps(fs)(at, name)
              case Expand(base, inner) =>
                var move := Steps(fs)(at, name);
                move.Expand? && move.base == base && IsPadded(move.inner, inner, ".")
    {
      if !IsDots(name) && fs(at + [name]).Link? {
        var target := fs(at + [name]).target;
        assert Components(target) + [] == Components(target);
      }
    }
  }

  /** Where the kernel finds something, the resolver's walk ends at the same place and spends no more; a slash at the
      end makes no difference to it. */
  lemma KernelAgrees(fs: FS, names: seq<string>, padded: seq<string>, limit: nat)
    requires IsPadded(names, padded, ".") && Lookup(fs, padded, limit).Resolved?
    ensures var r := Walk(Steps(fs), [], names, limit);
            r.Resolved? && r.place == Lookup(fs, padded, limit).place && r.left >= Lookup(fs, padded, limit).left
  {
    KernelPads(fs);
    PaddedResolves(Steps(fs), KernelSteps(fs), ".", [], names, padded, limit);
  }

  /** os.Stat, which follows a final symlink. */
  function Stat(fs: FS, path: string, limit: nat): Outcome {
    Lookup(fs, KernelNames(path), limit)
  }

  /** Resolver before and kernel afterwards agree on every path they both accept, as long as no symlink has come or
      gone. */
  lemma ResolverAgreesWithKernel(before: FS, now: FS, path: string, limit: nat)
    requires SameLinks(before, now) && Resolve(before, path).Resolved? && Stat(now, path, limit).Resolved?
    ensures Resolve(before, path).place == Stat(now, path, limit).place
  {
    assert Components(path) + [] == Components(path);
    KernelAgrees(now, Components(path), KernelNames(path), limit);
    StepsAgree(before, now);
    WalksAgree(Steps(before), Steps(now), [], Components(path), MAX_PATH_COMPONENTS, limit);
  }

  lemma SlashIsNoName(path: string)
    ensures Components(path + "/") == Components(path) && KernelNames(path + "/") == Components(path) + ["."]
  {
    ComponentsConcat(path, "");
    NoComponents();
    assert path + "/" + "" == path + "/" && (path + "/")[|path|..] == "/";
  }

  lemma DotDemandsDirectory(fs: FS, names: seq<string>, limit: nat)
    requires Lookup(fs, names, limit).Resolved? && Lookup(fs, names, limit).left > 0
    ensures var found := Lookup(fs, names, limit);
            Lookup(fs, names + ["."], limit)
            == if IsDirectory(fs, found.place) then Resolved(found.place, found.left - 1) else Failed(Denied)
  {
    var found, m := Lookup(fs, names, limit), KernelSteps(fs);
    assert m(found.place, ".") == if IsDirectory(fs, found.place) then To(found.place) else Stop(Denied);
    WalkAndStay(m, [], names, ".", limit);
  }

  lemma NoSlashNames(path: string)
    requires !HasSuffix(path, "/")
    ensures KernelNames(path) == Components(path)
  {
  }

  /** The slash rule of section 4.13: with a slash behind it, what a path names is found exactly if it is a directory,
      and is an error other than "not found" if it is anything else. */
  lemma TrailingSlashDemandsDirectory(fs: FS, path: string, limit: nat)
    requires !HasSuffix(path, "/") && Stat(fs, path, limit).Resolved? && Stat(fs, path, limit).left > 0
    ensures var found, slashed := Stat(fs, path, limit), Stat(fs, path + "/", limit);
            slashed == if found.place == [] || fs(found.place).Directory? then Resolved(found.place, found.left - 1)
                       else Failed(Denied)
  {
    SlashIsNoName(path);
    NoSlashNames(path);
    DotDemandsDirectory(fs, Components(path), limit);
  }

  // ------------------------------------------------------------------ ValidatePaths

  predicate IsSocketAt(fs: FS, place: Place) {
    place != [] && fs(place).Socket?
  }

  /** os.SameFile, for what os.Stat has found. */
  predicate SameFile(fs: FS, listen: Outcome, docker: Place) {
    listen.Resolved? && listen.place != [] && docker != [] && fs(listen.place) == fs(docker)
  }

  datatype Verdict = Accepted | ConfigError | RuntimeError

  /** A path leads the kernel to a socket with this inode number: under the same name, or by a hard link. */
  ghost predicate LeadsToInode(fs: FS, limit: nat, path: string, ino: nat) {
    Stat(fs, path, limit).Resolved? &&
    var place := Stat(fs, path, limit).place;
    place != [] && fs(place) == Socket(ino)
  }

  /** Two absolute paths that resolve to different places; what the Docker path names, if anything, is a socket, and is
      not the file the listen path names. */
  ghost predicate AreApart(fs: FS, limit: nat, listen: string, docker: string) {
    && listen != "" && listen[0] == '/' && docker != "" && docker[0] == '/'
    && Resolve(fs, listen).Resolved? && Resolve(fs, docker).Resolved?
    && Resolve(fs, listen).place != Resolve(fs, docker).place
    && var d := Stat(fs, docker, limit);
       || d == Failed(NotFound)
       || (d.Resolved? && d.place != [] && fs(d.place).Socket? && !LeadsToInode(fs, limit, listen, fs(d.place).ino))
  }

  /** A mistake that no later state of the filesystem is expected to mend. */
  ghost predicate IsMisconfigured(fs: FS, limit: nat, listen: string, docker: string) {
    || listen == "" || listen[0] != '/' || docker == "" || docker[0] != '/' || listen == docker
    || (&& Resolve(fs, listen).Resolved? && Resolve(fs, docker).Resolved?
        && (|| Resolve(fs, listen).place == Resolve(fs, docker).place
            || var d := Stat(fs, docker, limit);
               d.Resolved? && (|| d.place == [] || !fs(d.place).Socket?
                               || LeadsToInode(fs, limit, listen, fs(d.place).ino))))
  }

  method ValidatePaths(fs: FS, limit: nat, listen: string, docker: string) returns (v: Verdict)
    ensures v.Accepted? <==> AreApart(fs, limit, listen, docker)
    ensures v.ConfigError? <==> IsMisconfigured(fs, limit, listen, docker)
  {
    if !IsAbs(listen) || !IsAbs(docker) || listen == docker {
      return ConfigError;
    }
    var listenResolved := ResolvePath(fs, listen);
    if !listenResolved.Resolved? {
      return RuntimeError;
    }
    var dockerResolved := ResolvePath(fs, docker);
    if !dockerResolved.Resolved? {
      return RuntimeError;
    }
    if listenResolved.place == dockerResolved.place {
      return ConfigError;
    }
    var listenInfo, dockerInfo := Stat(fs, listen, limit), Stat(fs, docker, limit);
    if !dockerInfo.Resolved? && dockerInfo != Failed(NotFound) {
      return RuntimeError;
    }
    if dockerInfo.Resolved? {
      if !IsSocketAt(fs, dockerInfo.place) {
        return ConfigError;
      }
      if SameFile(fs, listenInfo, dockerInfo.place) {
        return ConfigError;
      }
    }
    return Accepted;
  }
}
