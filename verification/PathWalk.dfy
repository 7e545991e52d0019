/** Walks over names, whatever applying one name at one place does.

    A place is the sequence of names that leads to it from the root. `Moves` says what applying a name at a place
    leads to: another place, the names of a link to expand from some place, or an error. Modules PathResolution and
    PathAliases give the moves of the resolver and those of the kernel. */
module PathWalk {
  import opened Text

  type Place = seq<string>

  /** NotFound is what os.IsNotExist recognises; Denied stands for every other error. */
  datatype Error = NotFound | Denied

  datatype Move = To(place: Place) | Expand(base: Place, inner: seq<string>) | Stop(error: Error)

  type Moves = (Place, string) -> Move

  datatype Outcome = Resolved(place: Place, left: nat) | TooLong | Failed(error: Error)

  /** The recursive walk: a link is expanded completely before the names after it are applied. Each name costs one of
      the budget. */
  function Walk(m: Moves, at: Place, names: seq<string>, budget: nat): (r: Outcome)
    ensures r.Resolved? ==> r.left <= budget
    decreases budget, 0, names
  {
    if names == [] then Resolved(at, budget)
    else if budget == 0 then TooLong
    else
      match m(at, names[0])
      case Stop(error) => Failed(error)
      case To(place) => Walk(m, place, names[1..], budget - 1)
      case Expand(base, inner) => Then(m, Walk(m, base, inner, budget - 1), names[1..], budget - 1)
  }

  /** Go on with more names from where a walk has come to. */
  function Then(m: Moves, first: Outcome, names: seq<string>, bound: nat): (r: Outcome)
    requires first.Resolved? ==> first.left <= bound
    ensures r.Resolved? ==> r.left <= bound
    decreases bound, 1, names
  {
    match first
    case Resolved(place, left) => Walk(m, place, names, left)
    case TooLong => TooLong
    case Failed(error) => Failed(error)
  }

  /** Budgets add up over the concatenation of paths. */
  lemma {:induction false} WalkConcat(m: Moves, at: Place, a: seq<string>, b: seq<string>, budget: nat)
    ensures Walk(m, at, a + b, budget) == Then(m, Walk(m, at, a, budget), b, budget)
    decreases budget
  {
    if a == [] {
      assert a + b == b;
    } else if budget > 0 {
      assert (a + b)[0] == a[0] && (a + b)[1..] == a[1..] + b;
      match m(at, a[0])
      case Stop(_) =>
      case To(place) =>
        WalkConcat(m, place, a[1..], b, budget - 1);
      case Expand(base, inner) =>
        var first := Walk(m, base, inner, budget - 1);
        if first.Resolved? {
          WalkConcat(m, first.place, a[1..], b, first.left);
        }
    }
  }

  /** A single name that leads to a place. */
  lemma WalkTo(m: Moves, at: Place, name: string, budget: nat)
    requires m(at, name).To?
    ensures Walk(m, at, [name], budget) == if budget == 0 then TooLong else Resolved(m(at, name).place, budget - 1)
  {
    assert [name][1..] == [];
  }

  /** One more name, with one more of the budget to spend on it. */
  lemma WalkOneMore(m: Moves, at: Place, names: seq<string>, name: string, budget: nat)
    requires Walk(m, at, names, budget).Resolved? && m(Walk(m, at, names, budget).place, name).To?
    ensures var r := Walk(m, at, names, budget);
            Walk(m, at, names + [name], budget + 1) == Resolved(m(r.place, name).place, r.left)
  {
    var r := Walk(m, at, names, budget);
    MoreBudget(m, at, names, budget, 1);
    WalkConcat(m, at, names, [name], budget + 1);
    WalkTo(m, r.place, name, r.left + 1);
  }

  // -------------------------------------------------- the walk without a budget

  /** Applying `names` at `at` ends at `end` and applies `n` names in all, those in links included. */
  ghost predicate Reaches(m: Moves, at: Place, names: seq<string>, n: nat, end: Place)
    decreases n, 0
  {
    if names == [] then n == 0 && at == end
    else
      n > 0 &&
      match m(at, names[0])
      case Stop(_) => false
      case To(place) => Reaches(m, place, names[1..], n - 1, end)
      case Expand(base, inner) => ReachesVia(m, base, inner, names[1..], n - 1, end)
  }

  /** First the whole of a link, then the names after it. */
  ghost predicate ReachesVia(m: Moves, base: Place, inner: seq<string>, names: seq<string>, n: nat, end: Place)
    decreases n, 1
  {
    exists k: nat, mid: Place :: k <= n && Reaches(m, base, inner, k, mid) && Reaches(m, mid, names, n - k, end)
  }

  lemma {:induction false} WalkReaches(m: Moves, at: Place, names: seq<string>, budget: nat)
    requires Walk(m, at, names, budget).Resolved?
    ensures var r := Walk(m, at, names, budget); Reaches(m, at, names, budget - r.left, r.place)
    decreases budget
  {
    if names != [] {
      match m(at, names[0])
      case To(place) =>
        WalkReaches(m, place, names[1..], budget - 1);
      case Expand(base, inner) =>
        var first, r := Walk(m, base, inner, budget - 1), Walk(m, at, names, budget);
        WalkReaches(m, base, inner, budget - 1);
        WalkReaches(m, first.place, names[1..], first.left);
        ReachesJoin(m, base, inner, names[1..], budget - 1 - first.left, first.place, first.left - r.left, r.place);
    }
  }

  lemma ReachesJoin(m: Moves, base: Place, inner: seq<string>, names: seq<string>, k: nat, mid: Place, l: nat,
                    end: Place)
    requires Reaches(m, base, inner, k, mid) && Reaches(m, mid, names, l, end)
    ensures ReachesVia(m, base, inner, names, k + l, end)
  {
    var n := k + l;
    assert k <= n && Reaches(m, mid, names, n - k, end);
  }

  lemma ReachesSplit(m: Moves, base: Place, inner: seq<string>, names: seq<string>, n: nat, end: Place)
    returns (k: nat, mid: Place)
    requires ReachesVia(m, base, inner, names, n, end)
    ensures k <= n && Reaches(m, base, inner, k, mid) && Reaches(m, mid, names, n - k, end)
  {
    k, mid :| k <= n && Reaches(m, base, inner, k, mid) && Reaches(m, mid, names, n - k, end);
  }

  lemma {:induction false} ReachesWalk(m: Moves, at: Place, names: seq<string>, n: nat, end: Place, budget: nat)
    requires Reaches(m, at, names, n, end) && n <= budget
    ensures Walk(m, at, names, budget) == Resolved(end, budget - n)
    decreases n
  {
    if names != [] {
      match m(at, names[0])
      case To(place) =>
        ReachesWalk(m, place, names[1..], n - 1, end, budget - 1);
      case Expand(base, inner) =>
        var k, mid := ReachesSplit(m, base, inner, names[1..], n - 1, end);
        ReachesWalk(m, base, inner, k, mid, budget - 1);
        ReachesWalk(m, mid, names[1..], n - 1 - k, end, budget - 1 - k);
    }
  }

  ghost predicate ReachesWithin(m: Moves, at: Place, names: seq<string>, budget: nat, end: Place) {
    exists n: nat :: n <= budget && Reaches(m, at, names, n, end)
  }

  /** A budgeted walk ends at a place exactly when the unbounded one ends there within the budget. */
  lemma WalkIffReaches(m: Moves, at: Place, names: seq<string>, budget: nat, end: Place)
    ensures Walk(m, at, names, budget).Resolved? && Walk(m, at, names, budget).place == end <==>
            ReachesWithin(m, at, names, budget, end)
  {
    if Walk(m, at, names, budget).Resolved? {
      WalkReaches(m, at, names, budget);
    }
    if ReachesWithin(m, at, names, budget, end) {
      var n: nat :| n <= budget && Reaches(m, at, names, n, end);
      ReachesWalk(m, at, names, n, end, budget);
    }
  }

  /** More budget changes a successful walk in nothing but what is left. */
  lemma MoreBudget(m: Moves, at: Place, names: seq<string>, budget: nat, more: nat)
    requires Walk(m, at, names, budget).Resolved?
    ensures var r := Walk(m, at, names, budget); Walk(m, at, names, budget + more) == Resolved(r.place, r.left + more)
  {
    var r := Walk(m, at, names, budget);
    WalkReaches(m, at, names, budget);
    ReachesWalk(m, at, names, budget - r.left, r.place, budget + more);
  }

  // --------------------------------------------------------------------- cycles

  /** A place, and the names still to be applied there. */
  datatype Config = Config(at: Place, pending: seq<string>)

  /** Apply one name, putting the names of a link in front of the queue. */
  function Iterate(m: Moves, c: Config): Option<Config> {
    if c.pending == [] then None
    else
      match m(c.at, c.pending[0])
      case Stop(_) => None
      case To(place) => Some(Config(place, c.pending[1..]))
      case Expand(base, inner) => Some(Config(base, inner + c.pending[1..]))
  }

  /** `k` iterations lead from `c` to `d`. */
  ghost predicate Leads(m: Moves, c: Config, k: nat, d: Config)
    decreases k
  {
    if k == 0 then c == d
    else Iterate(m, c).Some? && Leads(m, Iterate(m, c).value, k - 1, d)
  }

  /** The walk in the terms of the loop: one name off the queue, and the names of a link in front of it. */
  lemma WalkStep(m: Moves, at: Place, pending: seq<string>, budget: nat)
    requires pending != []
    ensures var move, r := m(at, pending[0]), Walk(m, at, pending, budget + 1);
            && (move.Stop? ==> r == Failed(move.error))
            && (move.To? ==> r == Walk(m, move.place, pending[1..], budget))
            && (move.Expand? ==> r == Walk(m, move.base, move.inner + pending[1..], budget))
  {
    var move := m(at, pending[0]);
    if move.Expand? {
      WalkConcat(m, move.base, move.inner, pending[1..], budget);
    }
  }

  lemma StepTo(m: Moves, at: Place, name: string, rest: seq<string>, budget: nat)
    requires m(at, name).To?
    ensures Walk(m, at, [name] + rest, budget + 1) == Walk(m, m(at, name).place, rest, budget)
  {
    WalkStep(m, at, [name] + rest, budget);
    assert ([name] + rest)[1..] == rest;
  }

  lemma StepExpand(m: Moves, at: Place, name: string, rest: seq<string>, budget: nat)
    requires m(at, name).Expand?
    ensures Walk(m, at, [name] + rest, budget + 1) == Walk(m, m(at, name).base, m(at, name).inner + rest, budget)
  {
    WalkStep(m, at, [name] + rest, budget);
    assert ([name] + rest)[1..] == rest;
  }

  lemma StepStop(m: Moves, at: Place, name: string, rest: seq<string>, budget: nat)
    requires m(at, name).Stop?
    ensures Walk(m, at, [name] + rest, budget + 1) == Failed(m(at, name).error)
  {
    WalkStep(m, at, [name] + rest, budget);
  }

  lemma WalkIterate(m: Moves, c: Config, budget: nat)
    requires Iterate(m, c).Some?
    ensures var d := Iterate(m, c).value; Walk(m, c.at, c.pending, budget + 1) == Walk(m, d.at, d.pending, budget)
  {
    WalkStep(m, c.at, c.pending, budget);
  }

  lemma {:induction false} WalkAlong(m: Moves, c: Config, k: nat, d: Config, budget: nat)
    requires Leads(m, c, k, d)
    ensures k <= budget ==> Walk(m, c.at, c.pending, budget) == Walk(m, d.at, d.pending, budget - k)
    ensures k > budget ==> Walk(m, c.at, c.pending, budget) == TooLong
    decreases k
  {
    if k > 0 && budget > 0 {
      WalkIterate(m, c, budget - 1);
      WalkAlong(m, Iterate(m, c).value, k - 1, d, budget - 1);
    }
  }

  /** A name whose expansion comes back to the same name at the same place resolves under no budget. */
  lemma {:induction false} CycleNeverResolves(m: Moves, at: Place, name: string, k: nat, more: seq<string>, budget: nat)
    requires k > 0 && Leads(m, Config(at, [name]), k, Config(at, [name] + more))
    ensures !Walk(m, at, [name], budget).Resolved?
    decreases budget
  {
    WalkAlong(m, Config(at, [name]), k, Config(at, [name] + more), budget);
    if k <= budget {
      CycleNeverResolves(m, at, name, k, more, budget - k);
      WalkConcat(m, at, [name], more, budget - k);
    }
  }

  lemma CycleReached(m: Moves, c: Config, j: nat, at: Place, name: string, rest: seq<string>, k: nat,
                     more: seq<string>, budget: nat)
    requires Leads(m, c, j, Config(at, [name] + rest))
    requires k > 0 && Leads(m, Config(at, [name]), k, Config(at, [name] + more))
    ensures !Walk(m, c.at, c.pending, budget).Resolved?
  {
    WalkAlong(m, c, j, Config(at, [name] + rest), budget);
    if j <= budget {
      CycleNeverResolves(m, at, name, k, more, budget - j);
      WalkConcat(m, at, [name], rest, budget - j);
    }
  }

  // ------------------------------------------------------------- straight walks

  /** Each name leads on to the place that it and the names before it spell. */
  ghost predicate IsStraight(m: Moves, at: Place, names: seq<string>) {
    forall i :: 0 <= i < |names| ==> m(at + names[..i], names[i]) == To(at + names[..i] + [names[i]])
  }

  lemma StraightTail(m: Moves, at: Place, names: seq<string>)
    requires names != [] && IsStraight(m, at, names)
    ensures m(at, names[0]) == To(at + [names[0]]) && IsStraight(m, at + [names[0]], names[1..])
    ensures at + [names[0]] + names[1..] == at + names
  {
    var next, tail := at + [names[0]], names[1..];
    assert names[..0] == [] && at + [] == at;
    forall i | 0 <= i < |tail|
      ensures m(next + tail[..i], tail[i]) == To(next + tail[..i] + [tail[i]])
    {
      assert next + tail[..i] == at + names[..i + 1] && tail[i] == names[i + 1];
    }
  }

  lemma {:induction false} StraightWalk(m: Moves, at: Place, names: seq<string>, budget: nat)
    requires IsStraight(m, at, names) && |names| <= budget
    ensures Walk(m, at, names, budget) == Resolved(at + names, budget - |names|)
    decreases |names|
  {
    if names == [] {
      assert at + names == at;
    } else {
      StraightTail(m, at, names);
      WalkStep(m, at, names, budget - 1);
      StraightWalk(m, at + [names[0]], names[1..], budget - 1);
    }
  }

  // ------------------------------------------------------------- comparing walks

  /** Where neither stops, both do the same. */
  ghost predicate AgreeUnlessStopped(m: Moves, m': Moves) {
    forall at: Place, name: string :: m(at, name).Stop? || m'(at, name).Stop? || m(at, name) == m'(at, name)
  }

  lemma {:induction false} BothResolve(m: Moves, m': Moves, at: Place, names: seq<string>, budget: nat)
    requires AgreeUnlessStopped(m, m')
    requires Walk(m, at, names, budget).Resolved? && Walk(m', at, names, budget).Resolved?
    ensures Walk(m, at, names, budget) == Walk(m', at, names, budget)
    decreases budget
  {
    if names != [] {
      assert m(at, names[0]) == m'(at, names[0]);
      match m(at, names[0])
      case To(place) =>
        BothResolve(m, m', place, names[1..], budget - 1);
      case Expand(base, inner) =>
        BothResolve(m, m', base, inner, budget - 1);
        var first := Walk(m, base, inner, budget - 1);
        BothResolve(m, m', first.place, names[1..], first.left);
    }
  }

  /** Two walks that both resolve end at the same place, whatever their budgets, if their moves agree so far. */
  lemma WalksAgree(m: Moves, m': Moves, at: Place, names: seq<string>, b: nat, c: nat)
    requires AgreeUnlessStopped(m, m')
    requires Walk(m, at, names, b).Resolved? && Walk(m', at, names, c).Resolved?
    ensures Walk(m, at, names, b).place == Walk(m', at, names, c).place
  {
    MoreBudget(m, at, names, b, c);
    MoreBudget(m', at, names, c, b);
    BothResolve(m, m', at, names, b + c);
  }

  /** And they cost the same, so the budget of the one is enough for the other. */
  lemma WalksCostTheSame(m: Moves, m': Moves, at: Place, names: seq<string>, b: nat, c: nat)
    requires AgreeUnlessStopped(m, m')
    requires Walk(m, at, names, b).Resolved? && Walk(m', at, names, c).Resolved?
    ensures Walk(m', at, names, b) == Walk(m, at, names, b)
  {
    MoreBudget(m, at, names, b, c);
    MoreBudget(m', at, names, c, b);
    BothResolve(m, m', at, names, b + c);
    var r := Walk(m', at, names, c);
    WalkReaches(m', at, names, c);
    ReachesWalk(m', at, names, c - r.left, r.place, b);
  }

  /** Moves that stop only where others stop too lead wherever these lead. */
  lemma {:induction false} WeakerResolves(m: Moves, m': Moves, at: Place, names: seq<string>, budget: nat)
    requires forall p: Place, name: string :: !m(p, name).Stop? ==> m'(p, name) == m(p, name)
    requires Walk(m, at, names, budget).Resolved?
    ensures Walk(m', at, names, budget) == Walk(m, at, names, budget)
    decreases budget
  {
    if names != [] {
      assert m'(at, names[0]) == m(at, names[0]);
      match m(at, names[0])
      case To(place) =>
        WeakerResolves(m, m', place, names[1..], budget - 1);
      case Expand(base, inner) =>
        WeakerResolves(m, m', base, inner, budget - 1);
        var first := Walk(m, base, inner, budget - 1);
        WeakerResolves(m, m', first.place, names[1..], first.left);
    }
  }

  /** The same names, or these and one more that leads nowhere. */
  predicate IsPadded(names: seq<string>, padded: seq<string>, stay: string) {
    padded == names || padded == names + [stay]
  }

  /** Where `m'` does not stop, it does what `m` does, but for a name added to a link that leads nowhere. */
  ghost predicate Pads(m: Moves, m': Moves, stay: string) {
    && (forall at: Place :: m'(at, stay).Stop? || m'(at, stay) == To(at))
    && (forall at: Place, name: string ::
          match m'(at, name)
          case Stop(_) => true
          case To(_) => m(at, name) == m'(at, name)
          case Expand(base, inner) =>
            m(at, name).Expand? && m(at, name).base == base && IsPadded(m(at, name).inner, inner, stay))
  }

  lemma StayStep(m: Moves, stay: string, at: Place, budget: nat)
    requires m(at, stay).Stop? || m(at, stay) == To(at)
    ensures budget > 0 ==> Walk(m, at, [stay], budget) ==
                           match m(at, stay) case Stop(error) => Failed(error) case _ => Resolved(at, budget - 1)
    ensures budget == 0 ==> Walk(m, at, [stay], budget) == TooLong
  {
    assert [stay][1..] == [];
  }

  /** One more name, which leads nowhere or stops. */
  lemma WalkAndStay(m: Moves, at: Place, names: seq<string>, stay: string, budget: nat)
    requires var r := Walk(m, at, names, budget);
             r.Resolved? && r.left > 0 && (m(r.place, stay).Stop? || m(r.place, stay) == To(r.place))
    ensures var r := Walk(m, at, names, budget);
            Walk(m, at, names + [stay], budget)
            == match m(r.place, stay) case Stop(error) => Failed(error) case _ => Resolved(r.place, r.left - 1)
  {
    var r := Walk(m, at, names, budget);
    WalkConcat(m, at, names, [stay], budget);
    StayStep(m, stay, r.place, r.left);
  }

  /** Then wherever `m'` leads, `m` leads too, and spends no more. */
  lemma {:induction false} PaddedResolves(m: Moves, m': Moves, stay: string, at: Place, names: seq<string>,
                                          padded: seq<string>, budget: nat)
    requires Pads(m, m', stay) && IsPadded(names, padded, stay) && Walk(m', at, padded, budget).Resolved?
    ensures var r, r' := Walk(m, at, names, budget), Walk(m', at, padded, budget);
            r.Resolved? && r.place == r'.place && r.left >= r'.left
    decreases budget, |padded| - |names|
  {
    if padded != names {
      WalkConcat(m', at, names, [stay], budget);
      StayStep(m', stay, Walk(m', at, names, budget).place, Walk(m', at, names, budget).left);
      PaddedResolves(m, m', stay, at, names, names, budget);
    } else if names != [] {
      var name, rest := names[0], names[1..];
      match m'(at, name)
      case To(place) =>
        assert m(at, name) == To(place);
        PaddedResolves(m, m', stay, place, rest, rest, budget - 1);
      case Expand(base, inner) =>
        var plain := m(at, name).inner;
        PaddedResolves(m, m', stay, base, plain, inner, budget - 1);
        var first, first' := Walk(m, base, plain, budget - 1), Walk(m', base, inner, budget - 1);
        PaddedResolves(m, m', stay, first.place, rest, rest, first'.left);
        MoreBudget(m, first.place, rest, first'.left, first.left - first'.left);
    }
  }

  lemma {:induction false} SameMoves(m: Moves, m': Moves, at: Place, names: seq<string>, budget: nat)
    requires forall p: Place, name: string :: m(p, name) == m'(p, name)
    ensures Walk(m, at, names, budget) == Walk(m', at, names, budget)
    decreases budget
  {
    if names != [] && budget > 0 {
      assert m(at, names[0]) == m'(at, names[0]);
      match m(at, names[0])
      case Stop(_) =>
      case To(place) =>
        SameMoves(m, m', place, names[1..], budget - 1);
      case Expand(base, inner) =>
        SameMoves(m, m', base, inner, budget - 1);
        var first := Walk(m, base, inner, budget - 1);
        if first.Resolved? {
          SameMoves(m, m', first.place, names[1..], first.left);
        }
    }
  }

  /** The walk applies a name that is blocked at the place where it is applied. */
  ghost predicate Meets(m: Moves, blocked: (Place, string) -> bool, at: Place, names: seq<string>, budget: nat)
    decreases budget, names
  {
    names != [] && budget > 0 &&
    (|| blocked(at, names[0])
     || match m(at, names[0])
        case Stop(_) => false
        case To(place) => Meets(m, blocked, place, names[1..], budget - 1)
        case Expand(base, inner) =>
          || Meets(m, blocked, base, inner, budget - 1)
          || (var first := Walk(m, base, inner, budget - 1);
              first.Resolved? && Meets(m, blocked, first.place, names[1..], first.left)))
  }

  /** `m'` is `m`, except that it stops where a name is blocked. */
  ghost predicate IsBlocked(m: Moves, blocked: (Place, string) -> bool, m': Moves) {
    forall at: Place, name: string :: m'(at, name) == if blocked(at, name) then Stop(Denied) else m(at, name)
  }

  /** Blocking some names turns a walk that meets one of them into an error, and leaves every other as it was. */
  lemma {:induction false} BlockedWalk(m: Moves, blocked: (Place, string) -> bool, m': Moves,
                                       at: Place, names: seq<string>, budget: nat)
    requires IsBlocked(m, blocked, m') && Walk(m, at, names, budget).Resolved?
    ensures Walk(m', at, names, budget)
         == if Meets(m, blocked, at, names, budget) then Failed(Denied) else Walk(m, at, names, budget)
    decreases budget
  {
    if names != [] {
      assert m'(at, names[0]) == if blocked(at, names[0]) then Stop(Denied) else m(at, names[0]);
      if !blocked(at, names[0]) {
        match m(at, names[0])
        case To(place) =>
          BlockedWalk(m, blocked, m', place, names[1..], budget - 1);
        case Expand(base, inner) =>
          BlockedWalk(m, blocked, m', base, inner, budget - 1);
          var first := Walk(m, base, inner, budget - 1);
          BlockedWalk(m, blocked, m', first.place, names[1..], first.left);
      }
    }
  }

  /** From `dead` no name leads on, and `m'` differs from `m` only in what leads there. */
  ghost predicate DiffersAtDead(m: Moves, m': Moves, dead: Place) {
    && (forall name: string :: m(dead, name).Stop?)
    && (forall at: Place, name: string :: m(at, name).Stop? || m(at, name) == To(dead) || m'(at, name) == m(at, name))
    && (forall at: Place, name: string :: at != dead && m(at, name).Expand? ==> m(at, name).base != dead)
  }

  /** A walk that does not end at the dead place does not notice the difference. */
  lemma {:induction false} DeadUnnoticed(m: Moves, m': Moves, dead: Place, at: Place, names: seq<string>, budget: nat)
    requires DiffersAtDead(m, m', dead) && at != dead
    requires Walk(m, at, names, budget).Resolved? && Walk(m, at, names, budget).place != dead
    ensures Walk(m', at, names, budget) == Walk(m, at, names, budget)
    decreases budget
  {
    if names != [] {
      var name, rest := names[0], names[1..];
      assert m(at, name) == To(dead) || m'(at, name) == m(at, name);
      assert rest != [] ==> m(dead, rest[0]).Stop?;
      match m(at, name)
      case To(place) =>
        DeadUnnoticed(m, m', dead, place, rest, budget - 1);
      case Expand(base, inner) =>
        var first := Walk(m, base, inner, budget - 1);
        assert Walk(m, first.place, rest, first.left).Resolved?;
        DeadUnnoticed(m, m', dead, base, inner, budget - 1);
        DeadUnnoticed(m, m', dead, first.place, rest, first.left);
    }
  }

  // ------------------------------------------------------------------ invariants

  /** Every move from a good place with a good name leads to a good place, or to good names from one. */
  ghost predicate Keeps(m: Moves, place: Place -> bool, name: string -> bool) {
    forall at: Place, x: string :: place(at) && name(x) ==>
      match m(at, x)
      case Stop(_) => true
      case To(p) => place(p) && |p| <= |at| + 1
      case Expand(base, inner) => place(base) && |base| <= |at| && forall y :: y in inner ==> name(y)
  }

  /** Then a walk stays good, and goes no deeper than what it spends. */
  lemma {:induction false} WalkKeeps(m: Moves, place: Place -> bool, name: string -> bool,
                                     at: Place, names: seq<string>, budget: nat)
    requires Keeps(m, place, name) && place(at) && (forall y :: y in names ==> name(y))
    requires Walk(m, at, names, budget).Resolved?
    ensures var r := Walk(m, at, names, budget); place(r.place) && |r.place| <= |at| + (budget - r.left)
    decreases budget
  {
    if names != [] {
      assert name(names[0]);
      match m(at, names[0])
      case To(p) =>
        WalkKeeps(m, place, name, p, names[1..], budget - 1);
      case Expand(base, inner) =>
        WalkKeeps(m, place, name, base, inner, budget - 1);
        var first := Walk(m, base, inner, budget - 1);
        WalkKeeps(m, place, name, first.place, names[1..], first.left);
    }
  }
}
