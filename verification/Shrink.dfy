/**
 Greedy shrinking of a program: drop one statement at a time, at any depth, for as long as
 the failure is still provoked.

 A program stands for its own rendering: reading a rendered tree gives the tree back.
 */
module Shrink {

  /** A statement; a compound one holds the bodies of its fields and of its handlers. */
  datatype Stmt = Pass | Simple(text: string) | Compound(head: string, bodies: seq<Body>)

  datatype Body = Body(stmts: seq<Stmt>)

  /** Where a body stands: a body, or a statement of one and on from there. */
  datatype Path = Here(body: nat) | Inside(body: nat, stmt: nat, rest: Path)

  // ----- finding and replacing bodies -----

  /** `path` leads to a body of `t` with something in it. */
  predicate IsHolder(t: Stmt, path: Path)
    decreases path
  {
    && t.Compound? && path.body < |t.bodies|
    && match path
       case Here(b) => t.bodies[b].stmts != []
       case Inside(b, s, rest) => s < |t.bodies[b].stmts| && IsHolder(t.bodies[b].stmts[s], rest)
  }

  function BodyAt(t: Stmt, path: Path): (stmts: seq<Stmt>)
    requires IsHolder(t, path)
    ensures stmts != []
    decreases path
  {
    match path
    case Here(b) => t.bodies[b].stmts
    case Inside(b, s, rest) => BodyAt(t.bodies[b].stmts[s], rest)
  }

  function Replaced(t: Stmt, path: Path, stmts: seq<Stmt>): Stmt
    requires IsHolder(t, path)
    decreases path
  {
    match path
    case Here(b) => t.(bodies := t.bodies[b := Body(stmts)])
    case Inside(b, s, rest) =>
      var body := t.bodies[b].stmts;
      t.(bodies := t.bodies[b := Body(body[s := Replaced(body[s], rest, stmts)])])
  }

  /** A body less the statement at `at`; one that would be left empty holds a `pass`. */
  function Without(stmts: seq<Stmt>, at: nat): seq<Stmt>
    requires at < |stmts|
  {
    if |stmts| == 1 then [Pass] else stmts[..at] + stmts[at + 1..]
  }

  function Deleted(t: Stmt, path: Path, at: nat): Stmt
    requires IsHolder(t, path) && at < |BodyAt(t, path)|
  {
    Replaced(t, path, Without(BodyAt(t, path), at))
  }

  // ----- a deletion makes a program smaller, or is none -----

  /** Statements, and once more those that are not `pass`. */
  function Weight(t: Stmt): nat
    decreases t, 1
  {
    match t
    case Pass => 1
    case Simple(_) => 2
    case Compound(_, bodies) => 2 + WeightOfBodies(bodies)
  }

  function WeightOf(stmts: seq<Stmt>): nat
    decreases stmts, 0
  {
    if stmts == [] then 0 else Weight(stmts[0]) + WeightOf(stmts[1..])
  }

  function WeightOfBodies(bodies: seq<Body>): nat
    decreases bodies, 0
  {
    if bodies == [] then 0 else WeightOf(bodies[0].stmts) + WeightOfBodies(bodies[1..])
  }

  lemma {:induction false} WeightSplit(a: seq<Stmt>, b: seq<Stmt>)
    ensures WeightOf(a + b) == WeightOf(a) + WeightOf(b)
  {
    if a == [] {
      assert a + b == b;
    } else {
      assert (a + b)[1..] == a[1..] + b;
      WeightSplit(a[1..], b);
    }
  }

  lemma WeightAt(stmts: seq<Stmt>, at: nat, stmt: Stmt)
    requires at < |stmts|
    ensures WeightOf(stmts[at := stmt]) + Weight(stmts[at]) == WeightOf(stmts) + Weight(stmt)
  {
    hide Weight;
    var a, b := stmts[..at], stmts[at + 1..];
    assert stmts == a + ([stmts[at]] + b) && stmts[at := stmt] == a + ([stmt] + b);
    WeightSplit(a, [stmts[at]] + b);
    WeightSplit(a, [stmt] + b);
    assert ([stmts[at]] + b)[1..] == b && ([stmt] + b)[1..] == b;
  }

  lemma {:induction false} WeightOfBodiesAt(bodies: seq<Body>, b: nat, body: Body)
    requires b < |bodies|
    ensures WeightOfBodies(bodies[b := body]) + WeightOf(bodies[b].stmts) == WeightOfBodies(bodies) + WeightOf(body.stmts)
    decreases |bodies|
  {
    hide WeightOf;
    if b == 0 {
      assert bodies[b := body][1..] == bodies[1..];
    } else {
      WeightOfBodiesAt(bodies[1..], b - 1, body);
      assert bodies[b := body][1..] == bodies[1..][b - 1 := body];
    }
  }

  lemma {:induction false} ReplacedWeight(t: Stmt, path: Path, stmts: seq<Stmt>)
    requires IsHolder(t, path)
    ensures Weight(Replaced(t, path, stmts)) + WeightOf(BodyAt(t, path)) == Weight(t) + WeightOf(stmts)
    decreases path
  {
    hide WeightOf, WeightOfBodies;
    match path
    case Here(b) => WeightOfBodiesAt(t.bodies, b, Body(stmts));
    case Inside(b, s, rest) =>
      var body := t.bodies[b].stmts;
      var inner := Replaced(body[s], rest, stmts);
      ReplacedWeight(body[s], rest, stmts);
      WeightAt(body, s, inner);
      WeightOfBodiesAt(t.bodies, b, Body(body[s := inner]));
  }

  lemma WeightBounds(t: Stmt)
    ensures Weight(Pass) == 1 && Weight(t) >= 1 && (t != Pass ==> Weight(t) >= 2)
  {
  }

  lemma WeightOfOne(t: Stmt)
    ensures WeightOf([t]) == Weight(t)
  {
    hide Weight;
    assert [t][1..] == [];
  }

  lemma RemovedWeight(stmts: seq<Stmt>, at: nat)
    requires at < |stmts|
    ensures WeightOf(stmts) == WeightOf(stmts[..at] + stmts[at + 1..]) + Weight(stmts[at])
  {
    hide Weight, WeightOf;
    var a, one, b := stmts[..at], [stmts[at]], stmts[at + 1..];
    assert stmts == (a + one) + b;
    WeightSplit(a + one, b);
    WeightSplit(a, one);
    WeightOfOne(stmts[at]);
    WeightSplit(a, b);
  }

  lemma WithoutWeight(stmts: seq<Stmt>, at: nat)
    requires at < |stmts|
    ensures WeightOf(Without(stmts, at)) < WeightOf(stmts) || Without(stmts, at) == stmts
  {
    hide Weight, WeightOf;
    WeightBounds(stmts[at]);
    if |stmts| == 1 {
      assert stmts == [stmts[0]];
      WeightOfOne(stmts[0]);
      WeightOfOne(Pass);
    } else {
      RemovedWeight(stmts, at);
    }
  }

  lemma {:induction false} ReplacedSame(t: Stmt, path: Path)
    requires IsHolder(t, path)
    ensures Replaced(t, path, BodyAt(t, path)) == t
    decreases path
  {
    match path
    case Here(b) => assert t.bodies[b := Body(t.bodies[b].stmts)] == t.bodies;
    case Inside(b, s, rest) =>
      var body := t.bodies[b].stmts;
      ReplacedSame(body[s], rest);
      assert body[s := body[s]] == body;
      assert t.bodies[b := Body(body)] == t.bodies;
  }

  /** A deletion that leaves another program leaves a lighter one. */
  lemma DeletedLighter(t: Stmt, path: Path, at: nat)
    requires IsHolder(t, path) && at < |BodyAt(t, path)| && Deleted(t, path, at) != t
    ensures Weight(Deleted(t, path, at)) < Weight(t)
  {
    hide Weight, WeightOf;
    var body := BodyAt(t, path);
    ReplacedWeight(t, path, Without(body, at));
    WithoutWeight(body, at);
    ReplacedSame(t, path);
  }

  // ----- listing the bodies -----

  function Within(b: nat, s: nat, paths: seq<Path>): (within: seq<Path>)
    ensures forall p :: p in within <==> p.Inside? && p.body == b && p.stmt == s && p.rest in paths
  {
    if paths == [] then [] else [Inside(b, s, paths[0])] + Within(b, s, paths[1..])
  }

  /** Every body of `t` with something in it, outermost first. */
  function Holders(t: Stmt): seq<Path>
    decreases t, 1
  {
    if t.Compound? then HoldersFrom(t.bodies, 0) else []
  }

  /** Those of the bodies that are `b`-th and on in their statement. */
  function HoldersFrom(bodies: seq<Body>, b: nat): seq<Path>
    decreases bodies, 0
  {
    if bodies == [] then []
    else
      (if bodies[0].stmts != [] then [Here(b)] else [])
      + HoldersInside(bodies[0].stmts, b, 0)
      + HoldersFrom(bodies[1..], b + 1)
  }

  /** Those inside the statements that are `s`-th and on in body `b`. */
  function HoldersInside(stmts: seq<Stmt>, b: nat, s: nat): seq<Path>
    decreases stmts, 0
  {
    if stmts == [] then [] else Within(b, s, Holders(stmts[0])) + HoldersInside(stmts[1..], b, s + 1)
  }

  lemma {:induction false} HoldersListed(t: Stmt, p: Path)
    ensures p in Holders(t) <==> IsHolder(t, p)
    decreases t, 1
  {
    if t.Compound? { HoldersFromListed(t.bodies, 0, p); }
  }

  /** `p` leads into one of `bodies`, the first of them `b`-th. */
  predicate LeadsFrom(bodies: seq<Body>, b: nat, p: Path) {
    && b <= p.body < b + |bodies|
    && match p
       case Here(c) => bodies[c - b].stmts != []
       case Inside(c, s, rest) => s < |bodies[c - b].stmts| && IsHolder(bodies[c - b].stmts[s], rest)
  }

  predicate LeadsInside(stmts: seq<Stmt>, b: nat, s: nat, p: Path) {
    p.Inside? && p.body == b && s <= p.stmt < s + |stmts| && IsHolder(stmts[p.stmt - s], p.rest)
  }

  lemma LeadsFromStep(bodies: seq<Body>, b: nat, p: Path)
    requires bodies != []
    ensures LeadsFrom(bodies, b, p) <==>
            || (p == Here(b) && bodies[0].stmts != [])
            || LeadsInside(bodies[0].stmts, b, 0, p)
            || LeadsFrom(bodies[1..], b + 1, p)
  {
    hide IsHolder;
    if p.body > b && p.body < b + |bodies| {
      assert bodies[1..][p.body - (b + 1)] == bodies[p.body - b];
    }
  }

  lemma LeadsInsideStep(stmts: seq<Stmt>, b: nat, s: nat, p: Path)
    requires stmts != []
    ensures LeadsInside(stmts, b, s, p) <==>
            || (p.Inside? && p.body == b && p.stmt == s && IsHolder(stmts[0], p.rest))
            || LeadsInside(stmts[1..], b, s + 1, p)
  {
    hide IsHolder;
    if p.Inside? && s < p.stmt < s + |stmts| {
      assert stmts[1..][p.stmt - (s + 1)] == stmts[p.stmt - s];
    }
  }

  lemma {:induction false} HoldersFromListed(bodies: seq<Body>, b: nat, p: Path)
    ensures p in HoldersFrom(bodies, b) <==> LeadsFrom(bodies, b, p)
    decreases bodies, 0
  {
    hide IsHolder, HoldersInside, LeadsInside;
    if bodies != [] {
      hide LeadsFrom;
      LeadsFromStep(bodies, b, p);
      HoldersInsideListed(bodies[0].stmts, b, 0, p);
      HoldersFromListed(bodies[1..], b + 1, p);
    }
  }

  lemma {:induction false} HoldersInsideListed(stmts: seq<Stmt>, b: nat, s: nat, p: Path)
    ensures p in HoldersInside(stmts, b, s) <==> LeadsInside(stmts, b, s, p)
    decreases stmts, 0
  {
    hide IsHolder, Holders, Within;
    if stmts != [] {
      hide LeadsInside;
      LeadsInsideStep(stmts, b, s, p);
      if p.Inside? { HoldersListed(stmts[0], p.rest); }
      HoldersInsideListed(stmts[1..], b, s + 1, p);
    }
  }

  // ----- shrinking -----

  /** What the shrinker is handed: the predicate, what can be rendered, and the order bodies are listed in. */
  datatype Setting = Setting(fails: Stmt -> bool, renders: Stmt -> bool, holders: Stmt -> seq<Path>)

  /** Every body with something in it is listed, in some order and any number of times. */
  ghost predicate ListsHolders(s: Setting) {
    forall t, p :: p in s.holders(t) <==> IsHolder(t, p)
  }

  lemma ListingHolders(fails: Stmt -> bool, renders: Stmt -> bool)
    ensures ListsHolders(Setting(fails, renders, t => Holders(t)))
  {
    var s := Setting(fails, renders, t => Holders(t));
    forall t, p
      ensures p in s.holders(t) <==> IsHolder(t, p)
    {
      HoldersListed(t, p);
    }
  }

  /** Deleting the statement at `at` of the body at `path` yields no other program that fails. */
  ghost predicate Tried(s: Setting, t: Stmt, path: Path, at: nat)
    requires IsHolder(t, path) && at < |BodyAt(t, path)|
  {
    var c := Deleted(t, path, at);
    s.renders(c) && c != t ==> !s.fails(c)
  }

  /** No single deletion yields another program that fails. */
  ghost predicate OneMinimal(s: Setting, t: Stmt) {
    forall path, at: nat :: IsHolder(t, path) && at < |BodyAt(t, path)| ==> Tried(s, t, path, at)
  }

  ghost predicate TriedTo(s: Setting, t: Stmt, path: Path, end: nat) {
    IsHolder(t, path) ==> forall at: nat :: at < end && at < |BodyAt(t, path)| ==> Tried(s, t, path, at)
  }

  /** `u` is `t` with one statement deleted, and it fails. */
  ghost predicate Drops(s: Setting, t: Stmt, u: Stmt) {
    s.fails(u) && exists path, at: nat :: IsHolder(t, path) && at < |BodyAt(t, path)| && u == Deleted(t, path, at)
  }

  ghost predicate IsTrail(s: Setting, trail: seq<Stmt>) {
    |trail| > 0 && forall i :: 0 < i < |trail| ==> Drops(s, trail[i - 1], trail[i])
  }

  lemma TrailGrows(s: Setting, trail: seq<Stmt>, u: Stmt)
    requires IsTrail(s, trail) && Drops(s, trail[|trail| - 1], u)
    ensures IsTrail(s, trail + [u])
  {
    hide Drops;
    var more := trail + [u];
    forall i | 0 < i < |more|
      ensures Drops(s, more[i - 1], more[i])
    {
      if i < |trail| {
        assert more[i - 1] == trail[i - 1] && more[i] == trail[i];
      }
    }
  }

  /** Drop statements of the body listed at `index` until none of what is left of it can go. */
  method ShrinkBody(s: Setting, start: Stmt, index: nat, ghost sofar: seq<Stmt>)
    returns (best: Stmt, changed: bool, ghost trail: seq<Stmt>)
    requires ListsHolders(s) && s.fails(start) && |sofar| > 0 && IsTrail(s, sofar) && sofar[|sofar| - 1] == start
    ensures s.fails(best) && IsTrail(s, trail) && |trail| > 0 && sofar <= trail && trail[|trail| - 1] == best
    ensures changed ==> Weight(best) < Weight(start)
    ensures !changed ==> best == start && (index < |s.holders(start)| ==>
              var path := s.holders(start)[index];
              IsHolder(start, path) && TriedTo(s, start, path, |BodyAt(start, path)|))
  {
    hide Deleted, IsHolder, IsTrail;
    best, changed, trail := start, false, sofar;
    var at := 0;
    while true
      invariant s.fails(best) && IsTrail(s, trail) && |trail| > 0 && sofar <= trail && trail[|trail| - 1] == best
      invariant changed ==> Weight(best) < Weight(start)
      invariant !changed ==> best == start && (index < |s.holders(start)| ==> TriedTo(s, start, s.holders(start)[index], at))
      decreases Weight(best), if index < |s.holders(best)| && IsHolder(best, s.holders(best)[index])
                              then |BodyAt(best, s.holders(best)[index])| - at else 0
    {
      var bodies := s.holders(best);
      if index >= |bodies| {
        break;
      }
      var path := bodies[index];
      assert IsHolder(best, path) by { assert path in s.holders(best); }
      if at >= |BodyAt(best, path)| {
        break;
      }
      var candidate := Deleted(best, path, at);
      if !s.renders(candidate) || candidate == best {
        at := at + 1;
        continue;
      }
      if s.fails(candidate) {
        DeletedLighter(best, path, at);
        assert Drops(s, best, candidate);
        TrailGrows(s, trail, candidate);
        trail := trail + [candidate];
        best, changed := candidate, true;
      } else {
        at := at + 1;
      }
    }
  }

  /**
   Drop statements at any depth while the failure holds. What is returned fails, was come by
   through failing programs alone, and is minimal: no further single statement can go.
   */
  method ShrinkProgram(s: Setting, source: Stmt) returns (best: Stmt, ghost trail: seq<Stmt>)
    requires ListsHolders(s) && s.fails(source)
    ensures s.fails(best) && OneMinimal(s, best)
    ensures |trail| > 0 && IsTrail(s, trail) && trail[0] == source && trail[|trail| - 1] == best
  {
    hide IsTrail, Tried, IsHolder;
    best, trail := source, [source];
    TrailStarts(s, source);
    var changed := true;
    while changed
      invariant s.fails(best) && |trail| > 0 && IsTrail(s, trail) && trail[0] == source && trail[|trail| - 1] == best
      invariant !changed ==> OneMinimal(s, best)
      decreases Weight(best), changed
    {
      changed := false;
      ghost var start := best;
      var listed := |s.holders(best)|;
      for index := 0 to listed
        invariant s.fails(best) && |trail| > 0 && IsTrail(s, trail) && trail[0] == source && trail[|trail| - 1] == best
        invariant changed ==> Weight(best) < Weight(start)
        invariant !changed ==> best == start
        invariant !changed ==> forall j :: 0 <= j < index ==>
                    var path := s.holders(start)[j];
                    IsHolder(start, path) && TriedTo(s, start, path, |BodyAt(start, path)|)
      {
        var shrunk, hit;
        ghost var more;
        shrunk, hit, more := ShrinkBody(s, best, index, trail);
        assert more[0] == trail[0];
        best, trail := shrunk, more;
        changed := changed || hit;
      }
      if !changed {
        AllTried(s, best);
      }
    }
  }

  lemma TrailStarts(s: Setting, t: Stmt)
    ensures IsTrail(s, [t])
  {
  }

  lemma AllTried(s: Setting, t: Stmt)
    requires ListsHolders(s)
    requires forall j :: 0 <= j < |s.holders(t)| ==>
               var path := s.holders(t)[j];
               IsHolder(t, path) && TriedTo(s, t, path, |BodyAt(t, path)|)
    ensures OneMinimal(s, t)
  {
    hide Tried, IsHolder;
    forall path, at: nat | IsHolder(t, path) && at < |BodyAt(t, path)|
      ensures Tried(s, t, path, at)
    {
      assert path in s.holders(t);
      var j :| 0 <= j < |s.holders(t)| && s.holders(t)[j] == path;
      assert TriedTo(s, t, path, |BodyAt(t, path)|);
    }
  }

  // ----- what one deletion does -----

  /** The statement at `at` goes and the others stay in order; the only one leaves a `pass` behind. */
  lemma WithoutMeans(stmts: seq<Stmt>, at: nat)
    requires at < |stmts|
    ensures |stmts| == 1 ==> Without(stmts, at) == [Pass]
    ensures |stmts| > 1 ==>
              && |Without(stmts, at)| == |stmts| - 1
              && (forall k :: 0 <= k < at ==> Without(stmts, at)[k] == stmts[k])
              && forall k :: at <= k < |stmts| - 1 ==> Without(stmts, at)[k] == stmts[k + 1]
  {
  }

  /** A deletion changes the body it is made in and nothing beside it. */
  lemma DeletedMeans(t: Stmt, path: Path, at: nat)
    requires IsHolder(t, path) && at < |BodyAt(t, path)|
    ensures var u := Deleted(t, path, at);
            && u.Compound? && u.head == t.head && |u.bodies| == |t.bodies|
            && (forall b :: 0 <= b < |t.bodies| && b != path.body ==> u.bodies[b] == t.bodies[b])
    ensures path.Here? ==>
              && BodyAt(t, path) == t.bodies[path.body].stmts
              && Deleted(t, path, at).bodies[path.body].stmts == Without(t.bodies[path.body].stmts, at)
    ensures path.Inside? ==>
              var was, now := t.bodies[path.body].stmts, Deleted(t, path, at).bodies[path.body].stmts;
              && |now| == |was| && (forall k :: 0 <= k < |was| && k != path.stmt ==> now[k] == was[k])
              && BodyAt(t, path) == BodyAt(was[path.stmt], path.rest)
              && now[path.stmt] == Deleted(was[path.stmt], path.rest, at)
  {
  }
}
