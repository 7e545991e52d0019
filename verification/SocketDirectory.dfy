/** The directory a socket goes into, as `createSocketDir` of internal/gangway/socket.go makes it: which places become
    directories, and exactly when it can be had at all. */
module SocketDirectory {
  import opened PathWalk
  import opened PathResolution
  import opened PathAliases

  ghost predicate AreCanonical(names: seq<string>) {
    forall name :: name in names ==> IsCanonicalName(name)
  }

  lemma LastOf(names: seq<string>)
    requires names != []
    ensures names == Parent(names) + [names[|names| - 1]] && names[|names| - 1] in names
  {
  }

  predicate Exists(node: Node) {
    !node.Missing? && !node.Failing?
  }

  /** The root is a directory, and nothing lies below what does not exist. */
  ghost predicate IsTree(fs: FS) {
    fs([]).Directory? && forall p: Place, q: Place :: fs(p).Missing? && p < q ==> fs(q).Missing?
  }

  /** Everything on the way to `dir` exists. */
  ghost predicate WayIsThere(fs: FS, dir: Place) {
    forall q: Place :: q <= dir ==> !fs(q).Missing?
  }

  /** Directories have come to be where something was missing on the way to `dir`, and nothing else has changed. */
  ghost predicate FillsWay(fs: FS, fs': FS, dir: Place) {
    forall q: Place :: if fs(q).Missing? && q <= dir then fs'(q).Directory? else fs'(q) == fs(q)
  }

  lemma WayKeepsTree(f0: FS, f1: FS, dir: Place)
    requires IsTree(f0) && FillsWay(f0, f1, dir)
    ensures IsTree(f1) && WayIsThere(f1, dir)
  {
    forall p: Place, q: Place | f1(p).Missing? && p < q
      ensures f1(q).Missing?
    {
      assert f0(p).Missing? && !(p <= dir) && f0(q).Missing?;
    }
  }

  /** Every place on the way to one that the kernel finds is a directory. */
  lemma WayIsDirectories(fs: FS, names: seq<string>, limit: nat)
    requires Lookup(fs, names, limit).Resolved?
    ensures var place := Lookup(fs, names, limit).place; forall i :: 0 <= i < |place| ==> IsDirectory(fs, place[..i])
  {
    var good := (p: Place) => forall i :: 0 <= i < |p| ==> IsDirectory(fs, p[..i]);
    var any := (name: string) => true;
    forall at: Place, x: string | good(at) && any(x)
      ensures match KernelSteps(fs)(at, x)
              case Stop(_) => true
              case To(p) => good(p) && |p| <= |at| + 1
              case Expand(base, inner) => good(base) && |base| <= |at| && forall y :: y in inner ==> any(y)
    {
      assert forall i :: 0 <= i < |at| ==> (at + [x])[..i] == at[..i];
      assert (at + [x])[..|at|] == at;
      assert forall i :: 0 <= i < |Parent(at)| ==> Parent(at)[..i] == at[..i];
    }
    WalkKeeps(KernelSteps(fs), good, any, [], names, limit);
  }

  lemma MadeKeepsSteps(fs: FS, p: Place)
    requires p != [] && fs(p).Missing?
    ensures forall at: Place, name: string :: !KernelSteps(fs)(at, name).Stop? ==>
              KernelSteps(Grow(fs, p, Directory))(at, name) == KernelSteps(fs)(at, name)
  {
    var made := Grow(fs, p, Directory);
    forall at: Place, name: string | !KernelSteps(fs)(at, name).Stop?
      ensures KernelSteps(made)(at, name) == KernelSteps(fs)(at, name)
    {
      assert IsDirectory(fs, at) && IsDirectory(made, at);
      assert !IsDots(name) ==> at + [name] != p && made(at + [name]) == fs(at + [name]);
    }
  }

  lemma MadeKeepsLookup(fs: FS, p: Place, names: seq<string>, limit: nat)
    requires p != [] && fs(p).Missing? && Lookup(fs, names, limit).Resolved?
    ensures Lookup(Grow(fs, p, Directory), names, limit) == Lookup(fs, names, limit)
  {
    MadeKeepsSteps(fs, p);
    WeakerResolves(KernelSteps(fs), KernelSteps(Grow(fs, p, Directory)), [], names, limit);
  }

  lemma MadeIsNext(fs: FS, dir: Place, name: string)
    requires IsDirectory(fs, dir) && IsCanonicalName(name) && fs(dir + [name]).Missing?
    ensures KernelSteps(Grow(fs, dir + [name], Directory))(dir, name) == To(dir + [name])
  {
  }

  /** A directory just made is what its path leads to. */
  lemma MadeIsFound(fs: FS, names: seq<string>, limit: nat)
    requires names != [] && IsCanonicalName(names[|names| - 1])
    requires var dir := Lookup(fs, Parent(names), limit);
             dir.Resolved? && IsDirectory(fs, dir.place) && fs(dir.place + [names[|names| - 1]]).Missing?
    ensures var p := Lookup(fs, Parent(names), limit).place + [names[|names| - 1]];
            var found := Lookup(Grow(fs, p, Directory), names, limit);
            found.Resolved? ==> found.place == p
  {
    var dir, last := Lookup(fs, Parent(names), limit), names[|names| - 1];
    var p := dir.place + [last];
    var m := KernelSteps(Grow(fs, p, Directory));
    MadeKeepsLookup(fs, p, Parent(names), limit);
    WalkConcat(m, [], Parent(names), [last], limit);
    LastOf(names);
    MadeIsNext(fs, dir.place, last);
    WalkTo(m, dir.place, last, dir.left);
  }

  datatype Made = Created | AlreadyThere | NotMade

  /** All that was made lies on the way to `dir`, which itself was made if anything was. */
  ghost predicate MadeOnTheWay(fs: FS, fs': FS, dir: Place) {
    && (forall q: Place :: fs'(q) != fs(q) ==> q <= dir)
    && (fs' == fs || fs(dir).Missing?)
  }

  ghost predicate OnlyMakesDirectories(fs: FS, fs': FS) {
    forall q: Place :: fs'(q) != fs(q) ==> fs(q).Missing? && fs'(q).Directory?
  }

  /** On the way to a directory that is found, everything that was missing has become a directory. */
  lemma WayIsFilled(f0: FS, f1: FS, names: seq<string>, limit: nat)
    requires IsTree(f0) && OnlyMakesDirectories(f0, f1) && Lookup(f1, names, limit).Resolved?
    requires var dir := Lookup(f1, names, limit).place; MadeOnTheWay(f0, f1, dir) && IsDirectory(f1, dir)
    ensures FillsWay(f0, f1, Lookup(f1, names, limit).place)
  {
    var dir := Lookup(f1, names, limit).place;
    WayIsDirectories(f1, names, limit);
    forall q: Place | f0(q).Missing? && q <= dir
      ensures f1(q).Directory?
    {
      assert q != [] && dir[..|q|] == q;
      assert IsDirectory(f1, dir[..|q|]) by {
        if |q| == |dir| {
          assert q == dir;
        }
      }
    }
  }

  /** Mkdir in `dir`, where `dir` may have been made before. */
  ghost predicate IsMadeIn(f0: FS, f1: FS, f2: FS, names: seq<string>, dir: Outcome, made: Made)
    requires names != []
  {
    && dir.Resolved? && IsDirectory(f1, dir.place)
    && (IsTree(f0) && AreCanonical(names) ==> MadeOnTheWay(f0, f1, dir.place))
    && var p := dir.place + [names[|names| - 1]];
       if made == Created then f1(p).Missing? && f2 == Grow(f1, p, Directory) else f2 == f1 && Exists(f1(p))
  }

  /** One Mkdir, after the parents have been made. */
  lemma MadeAfterParents(f0: FS, f1: FS, f2: FS, names: seq<string>, limit: nat, made: Made)
    requires names != [] && OnlyMakesDirectories(f0, f1) && !Lookup(f0, names, limit).Resolved?
    requires made != NotMade ==> IsMadeIn(f0, f1, f2, names, Lookup(f1, Parent(names), limit), made)
    ensures made != NotMade && IsTree(f0) && AreCanonical(names) && Lookup(f2, names, limit).Resolved? ==>
              MadeOnTheWay(f0, f2, Lookup(f2, names, limit).place)
  {
    if made != NotMade && IsTree(f0) && AreCanonical(names) && Lookup(f2, names, limit).Resolved? {
      var dir := Lookup(f1, Parent(names), limit).place;
      var p := dir + [names[|names| - 1]];
      assert dir < p;
      if made == Created {
        assert names[|names| - 1] in names;
        MadeIsFound(f1, names, limit);
      } else {
        assert false;
      }
    }
  }

  // --------------------------------------------------- when it can be had

  /** The first `k` names lead to a directory, below which the next one is missing; with all the others it is `place`.
      After one step for each of these, at least `spare` of the kernel's bound is left. */
  ghost predicate MakesFrom(fs: FS, names: seq<string>, limit: nat, k: nat, place: Place, spare: nat) {
    k <= |names| &&
    var dir := Lookup(fs, names[..k], limit);
    && dir.Resolved? && IsDirectory(fs, dir.place) && dir.left >= |names| - k + spare
    && place == dir.place + names[k..]
    && (k < |names| ==> fs(dir.place + [names[k]]).Missing?)
  }

  ghost predicate CanMake(fs: FS, names: seq<string>, limit: nat, place: Place, spare: nat) {
    exists k: nat :: MakesFrom(fs, names, limit, k, place, spare)
  }

  ghost predicate Finds(fs: FS, names: seq<string>, limit: nat, place: Place, spare: nat) {
    var found := Lookup(fs, names, limit);
    found.Resolved? && found.place == place && IsDirectory(fs, place) && found.left >= spare
  }

  /** The directory is found afterwards exactly if it could be made or was there. */
  ghost predicate MakesExactly(fs: FS, fs': FS, ok: bool, names: seq<string>, limit: nat) {
    forall place: Place, spare: nat ::
      CanMake(fs, names, limit, place, spare) <==> ok && Finds(fs', names, limit, place, spare)
  }

  lemma MissingIsNotFound(fs: FS, names: seq<string>, limit: nat, k: nat, place: Place, spare: nat)
    requires AreCanonical(names) && MakesFrom(fs, names, limit, k, place, spare) && k < |names|
    ensures Lookup(fs, names, limit) == Failed(NotFound)
  {
    var dir, m := Lookup(fs, names[..k], limit), KernelSteps(fs);
    assert names == names[..k] + names[k..] && names[k] in names && names[k..][0] == names[k];
    WalkConcat(m, [], names[..k], names[k..], limit);
    assert m(dir.place, names[k]) == Stop(NotFound);
    WalkStep(m, dir.place, names[k..], dir.left - 1);
  }

  /** Where the path is found or cannot be looked at, nothing is made. */
  lemma NothingToMake(fs: FS, names: seq<string>, limit: nat)
    requires AreCanonical(names) && Lookup(fs, names, limit) != Failed(NotFound)
    ensures var info := Lookup(fs, names, limit);
            MakesExactly(fs, fs, info.Resolved? && IsDirectory(fs, info.place), names, limit)
  {
    var info := Lookup(fs, names, limit);
    var ok := info.Resolved? && IsDirectory(fs, info.place);
    assert names[..|names|] == names && names[|names|..] == [];
    forall place: Place, spare: nat
      ensures CanMake(fs, names, limit, place, spare) <==> ok && Finds(fs, names, limit, place, spare)
    {
      if CanMake(fs, names, limit, place, spare) {
        var k: nat :| MakesFrom(fs, names, limit, k, place, spare);
        if k < |names| {
          MissingIsNotFound(fs, names, limit, k, place, spare);
        }
        assert k == |names| && place == info.place + [] == info.place;
      }
      if ok && Finds(fs, names, limit, place, spare) {
        assert info.place + [] == info.place;
        assert MakesFrom(fs, names, limit, |names|, place, spare);
      }
    }
  }

  lemma ParentOf(names: seq<string>, k: nat, at: Place)
    requires names != [] && k < |names|
    ensures names[..k] == Parent(names)[..k] && (k < |Parent(names)| ==> Parent(names)[k] == names[k])
    ensures at + names[k..] == at + Parent(names)[k..] + [names[|names| - 1]]
    ensures Parent(at + names[k..]) == at + Parent(names)[k..]
    ensures at + [names[k]] == at + names[k..] || at + [names[k]] < at + names[k..]
  {
    LastOf(names);
    assert names[k..] == Parent(names)[k..] + [names[|names| - 1]] && names[k..][0] == names[k];
  }

  lemma MakesParent(fs: FS, names: seq<string>, limit: nat, k: nat, place: Place, spare: nat)
    requires k < |names| && IsTree(fs) && MakesFrom(fs, names, limit, k, place, spare)
    ensures place != [] && place[|place| - 1] == names[|names| - 1] && fs(place).Missing?
    ensures MakesFrom(fs, Parent(names), limit, k, Parent(place), spare + 1)
  {
    ParentOf(names, k, Lookup(fs, names[..k], limit).place);
  }

  lemma MakesChild(fs: FS, names: seq<string>, limit: nat, k: nat, dir: Place, spare: nat)
    requires names != [] && MakesFrom(fs, Parent(names), limit, k, dir, spare + 1)
    requires fs(dir + [names[|names| - 1]]).Missing?
    ensures MakesFrom(fs, names, limit, k, dir + [names[|names| - 1]], spare)
  {
    var at := Lookup(fs, Parent(names)[..k], limit).place;
    ParentOf(names, k, at);
    if k == |Parent(names)| {
      assert dir == at + [] == at;
    }
  }

  /** To make a directory is to be able to make its parent, with a step to spare, and to find nothing at its name. */
  lemma CanMakeBelow(fs: FS, names: seq<string>, limit: nat, place: Place, spare: nat)
    requires names != [] && IsTree(fs) && AreCanonical(names) && Lookup(fs, names, limit) == Failed(NotFound)
    ensures CanMake(fs, names, limit, place, spare) <==>
            && place != [] && place[|place| - 1] == names[|names| - 1] && fs(place).Missing?
            && CanMake(fs, Parent(names), limit, Parent(place), spare + 1)
  {
    if CanMake(fs, names, limit, place, spare) {
      var k: nat :| MakesFrom(fs, names, limit, k, place, spare);
      assert names[..|names|] == names;
      MakesParent(fs, names, limit, k, place, spare);
    }
    if place != [] && place[|place| - 1] == names[|names| - 1] && fs(place).Missing? {
      if CanMake(fs, Parent(names), limit, Parent(place), spare + 1) {
        var k: nat :| MakesFrom(fs, Parent(names), limit, k, Parent(place), spare + 1);
        LastOf(place);
        MakesChild(fs, names, limit, k, Parent(place), spare);
      }
    }
  }

  /** What was not on the way to what has been made is as it was. */
  lemma MissingBelowStays(f0: FS, f1: FS, dir: Place, name: string)
    requires OnlyMakesDirectories(f0, f1) && MadeOnTheWay(f0, f1, dir)
    ensures f1(dir + [name]) == f0(dir + [name])
  {
  }

  /** One Mkdir below a directory that is found: its place is found afterwards with one step less left. */
  lemma MadeFinds(fs: FS, names: seq<string>, limit: nat, place: Place, spare: nat)
    requires names != [] && AreCanonical(names) && Finds(fs, Parent(names), limit, place, 0)
    requires var p := place + [names[|names| - 1]]; fs(p).Missing?
    ensures var p := place + [names[|names| - 1]];
            Finds(Grow(fs, p, Directory), names, limit, p, spare) <==> Finds(fs, Parent(names), limit, place, spare + 1)
  {
    var last := names[|names| - 1];
    var p := place + [last];
    var m, dir := KernelSteps(Grow(fs, p, Directory)), Lookup(fs, Parent(names), limit);
    LastOf(names);
    MadeKeepsLookup(fs, p, Parent(names), limit);
    WalkConcat(m, [], Parent(names), [last], limit);
    MadeIsNext(fs, place, last);
    WalkTo(m, place, last, dir.left);
  }

  /** What one Mkdir comes to, in the directory its parent leads to. */
  ghost predicate IsMkdir(fs: FS, fs': FS, names: seq<string>, limit: nat, made: Made)
    requires names != []
  {
    var dir := Lookup(fs, Parent(names), limit);
    if dir.Resolved? && IsDirectory(fs, dir.place) then
      var p := dir.place + [names[|names| - 1]];
      if fs(p).Missing? then made == Created && fs' == Grow(fs, p, Directory)
      else fs' == fs && made == if fs(p).Failing? then NotMade else AlreadyThere
    else fs' == fs && made == NotMade
  }

  /** Parents first, then the directory itself, whose name is free exactly if it was before. */
  ghost predicate ParentsMade(f0: FS, f1: FS, names: seq<string>, limit: nat)
    requires names != []
  {
    && IsTree(f0) && AreCanonical(names) && Lookup(f0, names, limit) == Failed(NotFound)
    && OnlyMakesDirectories(f0, f1) && MakesExactly(f0, f1, true, Parent(names), limit)
    && (Lookup(f1, Parent(names), limit).Resolved? ==> MadeOnTheWay(f0, f1, Lookup(f1, Parent(names), limit).place))
  }

  /** A place that can be made is the last name in the directory that has been found, and is free there. */
  lemma MakeableIsFree(f0: FS, f1: FS, names: seq<string>, limit: nat, place: Place, spare: nat)
    requires names != [] && ParentsMade(f0, f1, names, limit) && CanMake(f0, names, limit, place, spare)
    ensures var dir := Lookup(f1, Parent(names), limit);
            && dir.Resolved? && IsDirectory(f1, dir.place)
            && place == dir.place + [names[|names| - 1]] && f1(place).Missing?
  {
    CanMakeBelow(f0, names, limit, place, spare);
    LastOf(place);
    assert Finds(f1, Parent(names), limit, Parent(place), spare + 1);
    MissingBelowStays(f0, f1, Parent(place), names[|names| - 1]);
  }

  lemma CreatedFinds(f0: FS, f1: FS, names: seq<string>, limit: nat, place: Place, spare: nat)
    requires names != [] && ParentsMade(f0, f1, names, limit)
    requires var dir := Lookup(f1, Parent(names), limit);
             dir.Resolved? && IsDirectory(f1, dir.place) && f1(dir.place + [names[|names| - 1]]).Missing?
    ensures var p := Lookup(f1, Parent(names), limit).place + [names[|names| - 1]];
            Finds(Grow(f1, p, Directory), names, limit, place, spare) ==> CanMake(f0, names, limit, place, spare)
    ensures var p := Lookup(f1, Parent(names), limit).place + [names[|names| - 1]];
            CanMake(f0, names, limit, p, spare) ==> Finds(Grow(f1, p, Directory), names, limit, p, spare)
  {
    var dir, last := Lookup(f1, Parent(names), limit).place, names[|names| - 1];
    var p := dir + [last];
    assert last in names;
    MadeIsFound(f1, names, limit);
    MadeFinds(f1, names, limit, dir, spare);
    MissingBelowStays(f0, f1, dir, last);
    CanMakeBelow(f0, names, limit, p, spare);
    assert Parent(p) == dir;
    assert CanMake(f0, Parent(names), limit, dir, spare + 1) <==> Finds(f1, Parent(names), limit, dir, spare + 1);
  }

  lemma MakesAt(f0: FS, f1: FS, f2: FS, names: seq<string>, limit: nat, made: Made, place: Place, spare: nat)
    requires names != [] && ParentsMade(f0, f1, names, limit) && IsMkdir(f1, f2, names, limit, made)
    ensures CanMake(f0, names, limit, place, spare) <==> made != NotMade && Finds(f2, names, limit, place, spare)
  {
    if made == Created {
      CreatedFinds(f0, f1, names, limit, place, spare);
    } else if made == AlreadyThere {
      NotMadeAgain(f0, f1, names, limit, place, spare);
    }
    if CanMake(f0, names, limit, place, spare) {
      MakeableIsFree(f0, f1, names, limit, place, spare);
    }
  }

  /** What is there already under the last name is not found, or it would have been before. */
  lemma NotMadeAgain(f0: FS, f1: FS, names: seq<string>, limit: nat, place: Place, spare: nat)
    requires names != [] && IsTree(f0) && AreCanonical(names) && Lookup(f0, names, limit) == Failed(NotFound)
    requires var dir := Lookup(f1, Parent(names), limit);
             && dir.Resolved? && MadeOnTheWay(f0, f1, dir.place) && OnlyMakesDirectories(f0, f1)
             && !f1(dir.place + [names[|names| - 1]]).Missing?
    ensures !Finds(f1, names, limit, place, spare)
  {
    var dir := Lookup(f1, Parent(names), limit).place;
    MissingBelowStays(f0, f1, dir, names[|names| - 1]);
    assert dir < dir + [names[|names| - 1]];
    assert f1 == f0;
  }

  /** The parents, then one Mkdir: the directory is found afterwards exactly if it can be made. */
  lemma MakesAfterParents(f0: FS, f1: FS, f2: FS, names: seq<string>, limit: nat, made: Made)
    requires names != [] && ParentsMade(f0, f1, names, limit) && IsMkdir(f1, f2, names, limit, made)
    ensures MakesExactly(f0, f2, made != NotMade, names, limit)
  {
    forall place: Place, spare: nat
      ensures CanMake(f0, names, limit, place, spare) <==> made != NotMade && Finds(f2, names, limit, place, spare)
    {
      MakesAt(f0, f1, f2, names, limit, made, place, spare);
    }
  }

  /** Without its parents it cannot be made. */
  lemma NoParents(f0: FS, f1: FS, names: seq<string>, limit: nat)
    requires names != [] && IsTree(f0) && AreCanonical(names) && Lookup(f0, names, limit) == Failed(NotFound)
    requires MakesExactly(f0, f1, false, Parent(names), limit)
    ensures MakesExactly(f0, f1, false, names, limit)
  {
    forall place: Place, spare: nat
      ensures CanMake(f0, names, limit, place, spare) <==> false && Finds(f1, names, limit, place, spare)
    {
      CanMakeBelow(f0, names, limit, place, spare);
    }
  }
}
