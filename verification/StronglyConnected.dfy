/**
 Tarjan's strongly connected components with an explicit walk stack, as the call graph
 analysis runs it.

 The method keeps the vectors of the original. What it knows about them is stated over
 `State`, a snapshot of those vectors, one small predicate at a time, and every move of
 the walk has lemmas saying that it keeps each predicate.
 */
module StronglyConnected {
  import Finite
  import opened Reachability

  /** For each node, the nodes its edges lead to, in the order they are followed. */
  type Edges = seq<seq<nat>>

  /** The mark of a node no walk has numbered: `usize::MAX`. */
  const UNVISITED: nat := 0xFFFF_FFFF_FFFF_FFFF

  /** A node being walked and how many of its edges have been followed. */
  datatype Frame = Frame(node: nat, followed: nat)

  /**
   A snapshot of the walk. `home` is not in the original: it says in which emitted
   component a node stands, which the components say less directly.
   */
  datatype State = State(
    order: seq<nat>,
    low: seq<nat>,
    onStack: seq<bool>,
    stack: seq<nat>,
    walk: seq<Frame>,
    components: seq<seq<nat>>,
    home: map<nat, nat>,
    next: nat)

  predicate InRange(e: Edges) {
    |e| <= UNVISITED && forall u, k :: 0 <= u < |e| && 0 <= k < |e[u]| ==> e[u][k] < |e|
  }

  function GraphOf(e: Edges): (g: Graph<nat>) {
    map u: nat | 0 <= u < |e| :: set k | 0 <= k < |e[u]| :: e[u][k]
  }

  lemma EdgeOf(e: Edges, u: nat, k: nat)
    requires u < |e| && k < |e[u]|
    ensures Edge(GraphOf(e), u, e[u][k])
  {
  }

  // ----- what the walk keeps true -----

  ghost predicate Shape(e: Edges, s: State) {
    && InRange(e)
    && |s.order| == |s.low| == |s.onStack| == |e|
    && (forall i :: 0 <= i < |s.stack| ==> s.stack[i] < |e|)
    && InWalk(e, s.walk)
  }

  ghost predicate InWalk(e: Edges, walk: seq<Frame>) {
    forall i :: 0 <= i < |walk| ==> walk[i].node < |e| && walk[i].followed <= |e[walk[i].node]|
  }

  predicate Seen(s: State, v: nat)
    requires v < |s.order|
  {
    s.order[v] != UNVISITED
  }

  ghost function SeenNodes(s: State): set<nat> {
    set v: nat | v < |s.order| && Seen(s, v)
  }

  ghost predicate Numbered(e: Edges, s: State)
    requires Shape(e, s)
  {
    && s.next == |SeenNodes(s)|
    && (forall v :: 0 <= v < |e| && Seen(s, v) ==> s.order[v] < s.next)
    && (forall u, v :: 0 <= u < |e| && 0 <= v < |e| && Seen(s, u) && s.order[u] == s.order[v] ==> u == v)
  }

  /** The node stack holds exactly the flagged nodes, in the order they were numbered. */
  ghost predicate Stacked(e: Edges, s: State)
    requires Shape(e, s)
  {
    && (forall i :: 0 <= i < |s.stack| ==> s.onStack[s.stack[i]] && Seen(s, s.stack[i]))
    && (forall v :: 0 <= v < |e| && s.onStack[v] ==> v in s.stack)
    && (forall i, j :: 0 <= i < j < |s.stack| ==> s.order[s.stack[i]] < s.order[s.stack[j]])
  }

  /** A numbered node is on the stack or in an emitted component, and never both. */
  ghost predicate Placed(e: Edges, s: State)
    requires Shape(e, s)
  {
    && (forall v :: v in s.home ==> v < |e| && Seen(s, v) && !s.onStack[v])
    && (forall v :: 0 <= v < |e| && Seen(s, v) && !s.onStack[v] ==> v in s.home)
  }

  ghost predicate Distinct(c: seq<nat>) {
    forall i, j :: 0 <= i < j < |c| ==> c[i] != c[j]
  }

  /** `home` and the components say the same thing. */
  ghost predicate Housed(s: State) {
    && (forall v :: v in s.home ==> s.home[v] < |s.components| && v in s.components[s.home[v]])
    && (forall c :: 0 <= c < |s.components| ==> s.components[c] != [] && Distinct(s.components[c]))
    && (forall c, i :: 0 <= c < |s.components| && 0 <= i < |s.components[c]| ==>
          s.components[c][i] in s.home && s.home[s.components[c][i]] == c)
  }

  /** An edge out of an emitted component leads to it or to an earlier one. */
  ghost predicate Ordered(e: Edges, s: State)
    requires Shape(e, s)
  {
    forall v, k :: v in s.home && v < |e| && 0 <= k < |e[v]| ==>
      e[v][k] in s.home && s.home[e[v][k]] <= s.home[v]
  }

  /** The members of a component reach one another. */
  ghost predicate Mutual(e: Edges, s: State) {
    forall u, v :: u in s.home && v in s.home && s.home[u] == s.home[v] ==> Reaches(GraphOf(e), u, v)
  }

  /** The nodes being walked are on the stack, in the order they were numbered. */
  ghost predicate Walked(e: Edges, s: State)
    requires Shape(e, s)
  {
    && (forall i :: 0 <= i < |s.walk| ==> s.onStack[s.walk[i].node])
    && (forall i, j :: 0 <= i < j < |s.walk| ==> s.order[s.walk[i].node] < s.order[s.walk[j].node])
  }

  /** A node being walked reaches everything stacked since. */
  ghost predicate Down(e: Edges, s: State)
    requires Shape(e, s)
  {
    forall i, v :: 0 <= i < |s.walk| && 0 <= v < |e| ==> Descends(e, s, i, v)
  }

  ghost predicate Descends(e: Edges, s: State, i: nat, v: nat)
    requires Shape(e, s) && v < |e| && i < |s.walk|
  {
    s.onStack[v] && s.order[s.walk[i].node] <= s.order[v] ==> Reaches(GraphOf(e), s.walk[i].node, v)
  }

  ghost predicate ClimbsTo(e: Edges, s: State, v: nat, i: nat)
    requires Shape(e, s) && v < |e| && i < |s.walk|
  {
    s.order[s.walk[i].node] <= s.order[v] && Reaches(GraphOf(e), v, s.walk[i].node)
  }

  /** Everything stacked reaches a node being walked that was numbered no later. */
  ghost predicate Up(e: Edges, s: State)
    requires Shape(e, s)
  {
    forall v :: 0 <= v < |e| && s.onStack[v] ==> Climbs(e, s, v)
  }

  ghost predicate Climbs(e: Edges, s: State, v: nat)
    requires Shape(e, s) && v < |e|
  {
    exists i :: 0 <= i < |s.walk| && ClimbsTo(e, s, v, i)
  }

  ghost predicate LowIs(e: Edges, s: State, v: nat, u: nat)
    requires Shape(e, s) && v < |e|
  {
    u < |e| && s.onStack[u] && s.order[u] == s.low[v] && Reaches(GraphOf(e), v, u)
  }

  /** `low` of a node being walked is the number of a stacked node it reaches. */
  ghost predicate LowMet(e: Edges, s: State)
    requires Shape(e, s)
  {
    forall i :: 0 <= i < |s.walk| ==> HasLow(e, s, s.walk[i].node)
  }

  ghost predicate HasLow(e: Edges, s: State, v: nat)
    requires Shape(e, s) && v < |e|
  {
    exists u :: LowIs(e, s, v, u)
  }

  ghost predicate LowSmall(e: Edges, s: State)
    requires Shape(e, s)
  {
    forall i :: 0 <= i < |s.walk| ==> s.low[s.walk[i].node] <= s.order[s.walk[i].node]
  }

  /** `v` was stacked while walk entry `i` was on top. */
  ghost predicate Under(e: Edges, s: State, i: nat, v: nat)
    requires Shape(e, s) && i < |s.walk| && v < |e|
  {
    && s.onStack[v]
    && s.order[s.walk[i].node] <= s.order[v]
    && (i + 1 < |s.walk| ==> s.order[v] < s.order[s.walk[i + 1].node])
  }

  /** Edge `k` of `v` has been followed, `v` being a node stacked under walk entry `i`. */
  predicate Done(s: State, i: nat, v: nat, k: nat)
    requires i < |s.walk|
  {
    v == s.walk[i].node ==> k < s.walk[i].followed
  }

  /** The target of edge `k` of `v` is numbered, and `low` of walk entry `i` accounts for it. */
  ghost predicate Scanned(e: Edges, s: State, i: nat, v: nat, k: nat)
    requires Shape(e, s) && i < |s.walk| && v < |e| && k < |e[v]|
  {
    Seen(s, e[v][k]) && (s.onStack[e[v][k]] ==> s.low[s.walk[i].node] <= s.order[e[v][k]])
  }

  ghost predicate LowBounds(e: Edges, s: State)
    requires Shape(e, s)
  {
    forall i, v, k | 0 <= i < |s.walk| && 0 <= v < |e| && 0 <= k < |e[v]| && Under(e, s, i, v) && Done(s, i, v, k) ::
      Scanned(e, s, i, v, k)
  }

  ghost predicate Inv(e: Edges, s: State) {
    && Shape(e, s) && Numbered(e, s) && Stacked(e, s) && Placed(e, s)
    && Housed(s) && Ordered(e, s) && Mutual(e, s)
    && Walked(e, s) && Down(e, s) && Up(e, s) && LowMet(e, s) && LowSmall(e, s) && LowBounds(e, s)
  }

  // ----- the moves of the walk -----

  function Min(a: nat, b: nat): nat {
    if a <= b then a else b
  }

  function Visit(s: State, t: nat): (r: State)
    requires t < |s.order| == |s.low| == |s.onStack|
  {
    s.(order := s.order[t := s.next], low := s.low[t := s.next], onStack := s.onStack[t := true],
       stack := s.stack + [t], walk := s.walk + [Frame(t, 0)], next := s.next + 1)
  }

  function Follow(s: State): (r: State)
    requires s.walk != []
  {
    var top := |s.walk| - 1;
    s.(walk := s.walk[top := s.walk[top].(followed := s.walk[top].followed + 1)])
  }

  function Lower(s: State, v: nat, x: nat): (r: State)
    requires v < |s.low|
  {
    s.(low := s.low[v := Min(s.low[v], x)])
  }

  /** Drop the top walk entry, handing its `low` to the entry below. */
  function Leave(s: State): (r: State)
    requires s.walk != [] && forall i :: 0 <= i < |s.walk| ==> s.walk[i].node < |s.low|
  {
    var node := s.walk[|s.walk| - 1].node;
    var below := s.walk[..|s.walk| - 1];
    var left := s.(walk := below);
    if below == [] then left else Lower(left, below[|below| - 1].node, s.low[node])
  }

  function Reverse(c: seq<nat>): (r: seq<nat>)
    ensures |r| == |c|
    ensures forall i :: 0 <= i < |c| ==> r[i] == c[|c| - 1 - i]
  {
    if c == [] then [] else Reverse(c[1..]) + [c[0]]
  }

  /** Drop the top walk entry and pop the stack down to position `at` into a component. */
  function Emit(s: State, at: nat): (r: State)
    requires at < |s.stack| && s.walk != []
  {
    s.(walk := s.walk[..|s.walk| - 1],
       stack := s.stack[..at],
       onStack := seq(|s.onStack|, v requires 0 <= v < |s.onStack| => s.onStack[v] && v !in s.stack[at..]),
       components := s.components + [Reverse(s.stack[at..])],
       home := s.home + (map v | v in s.stack[at..] :: |s.components|))
  }

  // ----- visiting a node keeps the invariant -----

  /** `t` may be walked next: nothing is being walked, or the top entry just followed an edge to it. */
  ghost predicate Enters(e: Edges, s: State, t: nat)
    requires Shape(e, s)
  {
    && t < |e| && !Seen(s, t)
    && (s.walk != [] ==>
          var top := s.walk[|s.walk| - 1];
          top.followed < |e[top.node]| && e[top.node][top.followed] == t)
  }

  lemma SeenFits(e: Edges, s: State, t: nat)
    requires Shape(e, s) && t < |e| && !Seen(s, t)
    ensures |SeenNodes(s)| < |e|
  {
    assert SeenNodes(s) <= Below(|e|) - {t};
    Finite.Subset(SeenNodes(s), Below(|e|) - {t});
  }

  ghost function Below(n: nat): (s: set<nat>)
    ensures |s| == n && forall v: nat :: v in s <==> v < n
  {
    if n == 0 then {} else Below(n - 1) + {n - 1}
  }

  /** `r` is `s` with `t` numbered, stacked and walked; only the top entry may have followed an edge. */
  ghost predicate Entered(e: Edges, s: State, r: State, t: nat) {
    && Shape(e, s) && Shape(e, r) && t < |e|
    && (forall v :: 0 <= v < |e| && v != t ==> r.order[v] == s.order[v])
    && (forall v :: 0 <= v < |e| && v != t ==> r.low[v] == s.low[v])
    && (forall v :: 0 <= v < |e| && v != t ==> r.onStack[v] == s.onStack[v])
    && r.order[t] == s.next && r.low[t] == s.next && r.onStack[t]
    && |r.walk| == |s.walk| + 1 && r.walk[|s.walk|] == Frame(t, 0)
    && (forall i :: 0 <= i < |s.walk| ==> r.walk[i].node == s.walk[i].node)
    && (forall i :: 0 <= i < |s.walk| - 1 ==> r.walk[i] == s.walk[i])
    && (s.walk != [] ==> r.walk[|s.walk| - 1].followed == s.walk[|s.walk| - 1].followed + 1)
    && r.stack == s.stack + [t] && r.next == s.next + 1
    && r.components == s.components && r.home == s.home
  }

  /** The state an edge to an unnumbered node, or a fresh root, leads to. */
  function Enter(s: State, t: nat): (r: State)
    requires t < |s.order| == |s.low| == |s.onStack|
  {
    Visit(if s.walk == [] then s else Follow(s), t)
  }

  lemma EnterEntered(e: Edges, s: State, t: nat)
    requires Shape(e, s) && Enters(e, s, t)
    ensures Entered(e, s, Enter(s, t), t)
  {
  }

  lemma EnterCounts(e: Edges, s: State, r: State, t: nat)
    requires Entered(e, s, r, t) && Enters(e, s, t) && Numbered(e, s)
    ensures Numbered(e, r)
    ensures s.next < |e|
  {
    SeenFits(e, s, t);
    assert SeenNodes(r) == SeenNodes(s) + {t};
  }

  lemma StackedEarlier(e: Edges, s: State, t: nat)
    requires Shape(e, s) && Numbered(e, s) && Stacked(e, s) && t < |e| && !Seen(s, t)
    ensures forall i :: 0 <= i < |s.stack| ==> s.stack[i] != t && s.order[s.stack[i]] < s.next
  {
  }

  lemma EnterStacks(e: Edges, s: State, r: State, t: nat)
    requires Entered(e, s, r, t) && Enters(e, s, t) && Numbered(e, s) && s.next < |e| && Stacked(e, s)
    ensures Stacked(e, r)
  {
    hide Numbered;
    StackedEarlier(e, s, t);
    assert forall i :: 0 <= i < |s.stack| ==> r.stack[i] == s.stack[i];
    assert forall i :: 0 <= i < |s.stack| ==> r.order[r.stack[i]] == s.order[s.stack[i]];
    forall v | 0 <= v < |e| && r.onStack[v]
      ensures v in r.stack
    {
      if v != t { assert v in s.stack; }
    }
  }

  lemma EnterPlaces(e: Edges, s: State, r: State, t: nat)
    requires Entered(e, s, r, t) && Enters(e, s, t) && s.next < |e| && Placed(e, s)
    ensures Placed(e, r)
  {
  }

  lemma EnterWalks(e: Edges, s: State, r: State, t: nat)
    requires Entered(e, s, r, t) && Enters(e, s, t) && Numbered(e, s) && s.next < |e| && Stacked(e, s) && Walked(e, s)
    ensures Walked(e, r)
  {
    hide InRange;
    forall i | 0 <= i < |s.walk|
      ensures s.walk[i].node != t && s.order[s.walk[i].node] < s.next
    {
      assert s.walk[i].node in s.stack;
    }
  }

  lemma EnterDown(e: Edges, s: State, r: State, t: nat)
    requires Entered(e, s, r, t) && Enters(e, s, t) && Numbered(e, s) && Stacked(e, s) && Walked(e, s) && Down(e, s)
    ensures Down(e, r)
  {
    var g := GraphOf(e);
    forall i, v | 0 <= i < |r.walk| && 0 <= v < |e|
      ensures Descends(e, r, i, v)
    {
      if i == |s.walk| {
        ReachesSelf(g, t);
      } else if v != t {
        assert Descends(e, s, i, v);
      } else {
        var top := s.walk[|s.walk| - 1];
        assert Descends(e, s, i, top.node);
        EdgeOf(e, top.node, top.followed);
        ReachesEdge(g, s.walk[i].node, top.node, t);
      }
    }
  }

  lemma EnterUp(e: Edges, s: State, r: State, t: nat)
    requires Entered(e, s, r, t) && Enters(e, s, t) && Walked(e, s) && Stacked(e, s) && Up(e, s)
    ensures Up(e, r)
  {
    forall v | 0 <= v < |e| && r.onStack[v]
      ensures Climbs(e, r, v)
    {
      if v == t {
        ReachesSelf(GraphOf(e), t);
        assert ClimbsTo(e, r, t, |s.walk|);
      } else {
        assert Climbs(e, s, v);
        var i :| 0 <= i < |s.walk| && ClimbsTo(e, s, v, i);
        assert ClimbsTo(e, r, v, i);
      }
    }
  }

  lemma EnterLow(e: Edges, s: State, r: State, t: nat)
    requires Entered(e, s, r, t) && Enters(e, s, t) && Walked(e, s) && Stacked(e, s) && LowMet(e, s)
    ensures LowMet(e, r)
  {
    forall i | 0 <= i < |r.walk|
      ensures HasLow(e, r, r.walk[i].node)
    {
      if i == |s.walk| {
        ReachesSelf(GraphOf(e), t);
        assert LowIs(e, r, t, t);
      } else {
        assert HasLow(e, s, s.walk[i].node);
        var u: nat :| LowIs(e, s, s.walk[i].node, u);
        assert LowIs(e, r, r.walk[i].node, u);
      }
    }
  }

  /** An edge followed below an older entry was followed before, except the one that led here. */
  lemma EnterBoundsOne(e: Edges, s: State, r: State, t: nat, i: nat, v: nat, k: nat)
    requires Entered(e, s, r, t) && Enters(e, s, t) && s.next < |e|
    requires Numbered(e, s) && Stacked(e, s) && Walked(e, s) && LowSmall(e, s) && LowBounds(e, s)
    requires i < |s.walk| && v < |e| && k < |e[v]| && Under(e, r, i, v) && Done(r, i, v, k)
    ensures Scanned(e, r, i, v, k)
  {
    assert v != t;
    assert Under(e, s, i, v);
    if Done(s, i, v, k) {
      assert Scanned(e, s, i, v, k);
    }
  }

  lemma EnterBounds(e: Edges, s: State, r: State, t: nat)
    requires Entered(e, s, r, t) && Enters(e, s, t) && s.next < |e|
    requires Numbered(e, s) && Stacked(e, s) && Walked(e, s) && LowSmall(e, s) && LowBounds(e, s)
    ensures LowBounds(e, r)
  {
    hide Numbered, Stacked, Walked, LowSmall, Scanned;
    forall i, v, k | 0 <= i < |r.walk| && 0 <= v < |e| && 0 <= k < |e[v]| && Under(e, r, i, v) && Done(r, i, v, k)
      ensures Scanned(e, r, i, v, k)
    {
      if i < |s.walk| {
        EnterBoundsOne(e, s, r, t, i, v, k);
      } else {
        assert v != t;
        EnterTop(e, s, r, t, v);
        assert false;
      }
    }
  }

  /** Nothing but the new node was stacked since it was numbered. */
  lemma EnterTop(e: Edges, s: State, r: State, t: nat, v: nat)
    requires Entered(e, s, r, t) && Numbered(e, s) && Stacked(e, s) && v < |e| && Under(e, r, |s.walk|, v)
    ensures v == t
  {
  }

  lemma EnterLowSmall(e: Edges, s: State, r: State, t: nat)
    requires Entered(e, s, r, t) && Enters(e, s, t) && Stacked(e, s) && Walked(e, s) && LowSmall(e, s)
    ensures LowSmall(e, r)
  {
  }

  /** Nothing said of the emitted components depends on more than those. */
  lemma SameComponents(e: Edges, s: State, r: State)
    requires Shape(e, s) && Shape(e, r) && Housed(s) && Ordered(e, s) && Mutual(e, s)
    requires r.components == s.components && r.home == s.home
    ensures Housed(r) && Ordered(e, r) && Mutual(e, r)
  {
  }

  lemma EnterKeeps(e: Edges, s: State, t: nat)
    requires Inv(e, s) && Enters(e, s, t)
    ensures s.next < |e| <= UNVISITED && Inv(e, Enter(s, t))
  {
    hide Numbered, Stacked, Placed, Housed, Ordered, Mutual, Walked, Down, Up, LowMet, LowSmall, LowBounds;
    var r := Enter(s, t);
    EnterEntered(e, s, t);
    EnterCounts(e, s, r, t);
    EnterStacks(e, s, r, t);
    EnterPlaces(e, s, r, t);
    EnterWalks(e, s, r, t);
    EnterDown(e, s, r, t);
    EnterUp(e, s, r, t);
    EnterLow(e, s, r, t);
    EnterBounds(e, s, r, t);
    EnterLowSmall(e, s, r, t);
    SameComponents(e, s, r);
  }

  // ----- following an edge to a numbered node keeps the invariant -----

  /** The top walk entry has an edge left, and it leads to the numbered node `t`. */
  ghost predicate Looks(e: Edges, s: State, t: nat)
    requires Shape(e, s)
  {
    && s.walk != [] && t < |e| && Seen(s, t)
    && var top := s.walk[|s.walk| - 1];
       top.followed < |e[top.node]| && e[top.node][top.followed] == t
  }

  function Look(s: State, t: nat): (r: State)
    requires s.walk != [] && s.walk[|s.walk| - 1].node < |s.low|
    requires t < |s.order| == |s.onStack|
  {
    if s.onStack[t] then Lower(Follow(s), s.walk[|s.walk| - 1].node, s.order[t]) else Follow(s)
  }

  ghost predicate Looked(e: Edges, s: State, r: State, t: nat) {
    && Shape(e, s) && Shape(e, r) && Looks(e, s, t)
    && r.order == s.order && r.onStack == s.onStack && r.stack == s.stack && r.next == s.next
    && r.components == s.components && r.home == s.home
    && |r.walk| == |s.walk|
    && (forall i :: 0 <= i < |s.walk| ==> r.walk[i].node == s.walk[i].node)
    && (forall i :: 0 <= i < |s.walk| - 1 ==> r.walk[i] == s.walk[i])
    && r.walk[|s.walk| - 1].followed == s.walk[|s.walk| - 1].followed + 1
    && var node := s.walk[|s.walk| - 1].node;
       (forall v :: 0 <= v < |e| && v != node ==> r.low[v] == s.low[v])
       && r.low[node] == if s.onStack[t] then Min(s.low[node], s.order[t]) else s.low[node]
  }

  lemma LookLooked(e: Edges, s: State, t: nat)
    requires Shape(e, s) && Looks(e, s, t)
    ensures Looked(e, s, Look(s, t), t)
  {
  }

  lemma LookRest(e: Edges, s: State, r: State, t: nat)
    requires Looked(e, s, r, t)
    requires Numbered(e, s) && Stacked(e, s) && Placed(e, s) && Walked(e, s)
    ensures Numbered(e, r) && Stacked(e, r) && Placed(e, r) && Walked(e, r)
  {
    assert SeenNodes(r) == SeenNodes(s);
  }

  lemma LookDownUp(e: Edges, s: State, r: State, t: nat)
    requires Looked(e, s, r, t) && Down(e, s) && Up(e, s)
    ensures Down(e, r) && Up(e, r)
  {
    forall i, v | 0 <= i < |r.walk| && 0 <= v < |e|
      ensures Descends(e, r, i, v)
    {
      assert Descends(e, s, i, v);
    }
    forall v | 0 <= v < |e| && r.onStack[v]
      ensures Climbs(e, r, v)
    {
      assert Climbs(e, s, v);
      var i :| 0 <= i < |s.walk| && ClimbsTo(e, s, v, i);
      assert ClimbsTo(e, r, v, i);
    }
  }

  lemma LookLow(e: Edges, s: State, r: State, t: nat)
    requires Looked(e, s, r, t) && Walked(e, s) && LowMet(e, s) && LowSmall(e, s)
    ensures LowMet(e, r) && LowSmall(e, r)
  {
    var top := s.walk[|s.walk| - 1];
    forall i | 0 <= i < |r.walk|
      ensures HasLow(e, r, r.walk[i].node)
    {
      assert HasLow(e, s, s.walk[i].node);
      var u: nat :| LowIs(e, s, s.walk[i].node, u);
      if i == |s.walk| - 1 && s.onStack[t] && s.order[t] < s.low[top.node] {
        EdgeOf(e, top.node, top.followed);
        ReachesStep(GraphOf(e), top.node, t);
        assert LowIs(e, r, top.node, t);
      } else {
        assert LowIs(e, r, r.walk[i].node, u);
      }
    }
  }

  lemma LookBounds(e: Edges, s: State, r: State, t: nat)
    requires Looked(e, s, r, t) && Walked(e, s) && LowBounds(e, s)
    ensures LowBounds(e, r)
  {
    forall i, v, k | 0 <= i < |r.walk| && 0 <= v < |e| && 0 <= k < |e[v]| && Under(e, r, i, v) && Done(r, i, v, k)
      ensures Scanned(e, r, i, v, k)
    {
      assert Under(e, s, i, v);
      if Done(s, i, v, k) {
        assert Scanned(e, s, i, v, k);
      }
    }
  }

  lemma LookKeeps(e: Edges, s: State, t: nat)
    requires Inv(e, s) && Looks(e, s, t)
    ensures Inv(e, Look(s, t)) && Shape(e, Look(s, t))
  {
    hide Numbered, Stacked, Placed, Housed, Ordered, Mutual, Walked, Down, Up, LowMet, LowSmall, LowBounds;
    var r := Look(s, t);
    LookLooked(e, s, t);
    LookRest(e, s, r, t);
    LookDownUp(e, s, r, t);
    LookLow(e, s, r, t);
    LookBounds(e, s, r, t);
    SameComponents(e, s, r);
  }

  // ----- leaving a node that reaches below itself keeps the invariant -----

  /** The top walk entry has no edge left. */
  ghost predicate Leaves(e: Edges, s: State)
    requires Shape(e, s)
  {
    s.walk != [] && var top := s.walk[|s.walk| - 1]; top.followed == |e[top.node]|
  }

  ghost predicate Left(e: Edges, s: State, r: State) {
    && Shape(e, s) && Shape(e, r) && Leaves(e, s) && |s.walk| > 1
    && r.order == s.order && r.onStack == s.onStack && r.stack == s.stack && r.next == s.next
    && r.components == s.components && r.home == s.home
    && r.walk == s.walk[..|s.walk| - 1]
    && var node, parent := s.walk[|s.walk| - 1].node, s.walk[|s.walk| - 2].node;
       (forall v :: 0 <= v < |e| && v != parent ==> r.low[v] == s.low[v])
       && r.low[parent] == Min(s.low[parent], s.low[node])
  }

  /** A root's `low` is its own number: nothing stacked was numbered before it. */
  lemma RootIsLow(e: Edges, s: State)
    requires Shape(e, s) && |s.walk| == 1 && Up(e, s) && LowMet(e, s)
    ensures s.low[s.walk[0].node] >= s.order[s.walk[0].node]
  {
    hide Reaches, GraphOf, InRange, Up;
    assert HasLow(e, s, s.walk[0].node);
    var u: nat :| LowIs(e, s, s.walk[0].node, u);
    UpAt(e, s, u);
  }

  lemma LeaveLeft(e: Edges, s: State)
    requires Shape(e, s) && Leaves(e, s) && |s.walk| > 1
    ensures Left(e, s, Leave(s))
  {
  }

  lemma LeaveRest(e: Edges, s: State, r: State)
    requires Left(e, s, r)
    requires Numbered(e, s) && Stacked(e, s) && Placed(e, s) && Walked(e, s)
    ensures Numbered(e, r) && Stacked(e, r) && Placed(e, r) && Walked(e, r)
  {
    assert SeenNodes(r) == SeenNodes(s);
  }

  lemma LeaveDown(e: Edges, s: State, r: State)
    requires Left(e, s, r) && Down(e, s)
    ensures Down(e, r)
  {
    forall i, v | 0 <= i < |r.walk| && 0 <= v < |e|
      ensures Descends(e, r, i, v)
    {
      assert Descends(e, s, i, v);
    }
  }

  lemma LeaveClimbs(e: Edges, s: State, r: State, v: nat)
    requires Left(e, s, r) && v < |e| && s.onStack[v] && Up(e, s)
    requires var node := s.walk[|s.walk| - 1].node; s.low[node] < s.order[node] && HasLow(e, s, node)
    ensures Climbs(e, r, v)
  {
    hide Reaches, GraphOf, InRange;
    var g, last := GraphOf(e), |s.walk| - 1;
    var node := s.walk[last].node;
    assert Climbs(e, s, v);
    var i :| 0 <= i < |s.walk| && ClimbsTo(e, s, v, i);
    if i < last {
      assert ClimbsTo(e, r, v, i);
    } else {
      var u: nat :| LowIs(e, s, node, u);
      assert Climbs(e, s, u);
      var j :| 0 <= j < |s.walk| && ClimbsTo(e, s, u, j);
      ReachesTrans(g, v, node, u);
      ReachesTrans(g, v, u, s.walk[j].node);
      assert ClimbsTo(e, r, v, j);
    }
  }

  lemma LeaveUp(e: Edges, s: State, r: State)
    requires Left(e, s, r) && Up(e, s) && LowMet(e, s)
    requires var node := s.walk[|s.walk| - 1].node; s.low[node] < s.order[node]
    ensures Up(e, r)
  {
    assert HasLow(e, s, s.walk[|s.walk| - 1].node);
    forall v | 0 <= v < |e| && r.onStack[v]
      ensures Climbs(e, r, v)
    {
      LeaveClimbs(e, s, r, v);
    }
  }

  lemma LeaveLow(e: Edges, s: State, r: State)
    requires Left(e, s, r) && Walked(e, s) && Down(e, s) && LowMet(e, s) && LowSmall(e, s)
    ensures LowMet(e, r) && LowSmall(e, r)
  {
    var g, last := GraphOf(e), |s.walk| - 1;
    var node, parent := s.walk[last].node, s.walk[last - 1].node;
    forall i | 0 <= i < |r.walk|
      ensures HasLow(e, r, r.walk[i].node)
    {
      if i == last - 1 && s.low[node] < s.low[parent] {
        assert HasLow(e, s, s.walk[last].node);
        var u: nat :| LowIs(e, s, node, u);
        assert Descends(e, s, i, node);
        ReachesTrans(g, parent, node, u);
        assert LowIs(e, r, parent, u);
      } else {
        assert HasLow(e, s, s.walk[i].node);
        var u: nat :| LowIs(e, s, s.walk[i].node, u);
        assert LowIs(e, r, r.walk[i].node, u);
      }
    }
  }

  lemma LeaveBounds(e: Edges, s: State, r: State)
    requires Left(e, s, r) && Walked(e, s) && LowBounds(e, s)
    ensures LowBounds(e, r)
  {
    var last := |s.walk| - 1;
    forall i, v, k | 0 <= i < |r.walk| && 0 <= v < |e| && 0 <= k < |e[v]| && Under(e, r, i, v) && Done(r, i, v, k)
      ensures Scanned(e, r, i, v, k)
    {
      if Under(e, s, i, v) {
        assert Done(s, i, v, k);
        assert Scanned(e, s, i, v, k);
      } else {
        assert Under(e, s, last, v) && Done(s, last, v, k);
        assert Scanned(e, s, last, v, k);
      }
    }
  }

  lemma LeaveKeeps(e: Edges, s: State)
    requires Inv(e, s) && Leaves(e, s)
    requires var node := s.walk[|s.walk| - 1].node; s.low[node] < s.order[node]
    ensures Inv(e, Leave(s)) && Shape(e, Leave(s)) && Leave(s).walk == s.walk[..|s.walk| - 1] && Leave(s).order == s.order
  {
    hide Numbered, Stacked, Placed, Housed, Ordered, Mutual, Walked, Down, Up, LowMet, LowSmall, LowBounds;
    if |s.walk| == 1 {
      RootIsLow(e, s);
    }
    var r := Leave(s);
    LeaveLeft(e, s);
    LeaveRest(e, s, r);
    LeaveDown(e, s, r);
    LeaveUp(e, s, r);
    LeaveLow(e, s, r);
    LeaveBounds(e, s, r);
    SameComponents(e, s, r);
  }

  // ----- emitting a component keeps the invariant -----

  /** The top walk entry is done and `low` says its component starts at stack position `at`. */
  ghost predicate Emits(e: Edges, s: State, at: nat)
    requires Shape(e, s)
  {
    && Leaves(e, s) && at < |s.stack|
    && var node := s.walk[|s.walk| - 1].node;
       s.stack[at] == node && s.low[node] == s.order[node]
  }

  ghost predicate Emitted(e: Edges, s: State, r: State, at: nat) {
    && Shape(e, s) && Shape(e, r) && Emits(e, s, at)
    && r.order == s.order && r.low == s.low && r.next == s.next
    && r.walk == s.walk[..|s.walk| - 1] && r.stack == s.stack[..at]
    && var node := s.walk[|s.walk| - 1].node;
       && (forall v :: 0 <= v < |e| ==> r.onStack[v] == (s.onStack[v] && s.order[v] < s.order[node]))
       && r.components == s.components + [Reverse(s.stack[at..])]
       && (forall v :: v in r.home <==> v in s.home || v in s.stack[at..])
       && (forall v :: v in s.home ==> r.home[v] == s.home[v])
       && (forall v :: v in s.stack[at..] ==> r.home[v] == |s.components|)
  }

  /** What stands on the stack from `at` on is what was numbered since the node there. */
  lemma Suffix(e: Edges, s: State, at: nat, v: nat)
    requires Shape(e, s) && Stacked(e, s) && at < |s.stack| && v < |e|
    ensures v in s.stack[at..] <==> s.onStack[v] && s.order[s.stack[at]] <= s.order[v]
  {
    if s.onStack[v] && s.order[s.stack[at]] <= s.order[v] {
      var i :| 0 <= i < |s.stack| && s.stack[i] == v;
      assert at <= i;
      assert s.stack[at..][i - at] == v;
    }
  }

  /** Leaving a component's own node hands its parent nothing new. */
  lemma LeaveLowest(e: Edges, s: State)
    requires Shape(e, s) && Leaves(e, s) && Walked(e, s) && LowSmall(e, s)
    requires var node := s.walk[|s.walk| - 1].node; s.low[node] == s.order[node]
    ensures Leave(s).low == s.low
  {
    if |s.walk| > 1 {
      var parent := s.walk[|s.walk| - 2].node;
      assert s.low[parent := s.low[parent]] == s.low;
    }
  }

  lemma EmitFlags(e: Edges, s: State, at: nat)
    requires Shape(e, s) && Emits(e, s, at) && Stacked(e, s)
    ensures forall v :: 0 <= v < |e| ==>
              Emit(s, at).onStack[v] == (s.onStack[v] && s.order[v] < s.order[s.stack[at]])
  {
    hide Stacked, InRange;
    forall v | 0 <= v < |e|
      ensures Emit(s, at).onStack[v] == (s.onStack[v] && s.order[v] < s.order[s.stack[at]])
    {
      Suffix(e, s, at, v);
    }
  }

  lemma EmitHomes(e: Edges, s: State, at: nat)
    requires Shape(e, s) && at < |s.stack| && s.walk != [] && Stacked(e, s) && Placed(e, s)
    ensures forall v :: v in s.home ==> Emit(s, at).home[v] == s.home[v]
  {
    hide Stacked, InRange;
    forall v | v in s.home
      ensures Emit(s, at).home[v] == s.home[v]
    {
      Suffix(e, s, at, v);
    }
  }

  lemma EmitEmitted(e: Edges, s: State, at: nat)
    requires Shape(e, s) && Emits(e, s, at) && Stacked(e, s) && Placed(e, s)
    ensures Emitted(e, s, Emit(s, at), at)
  {
    hide Stacked, Placed, InRange, Reverse;
    EmitFlags(e, s, at);
    EmitHomes(e, s, at);
  }

  lemma EmitRest(e: Edges, s: State, r: State, at: nat)
    requires Emitted(e, s, r, at) && Numbered(e, s) && Walked(e, s)
    ensures Numbered(e, r) && Walked(e, r)
  {
    assert SeenNodes(r) == SeenNodes(s);
  }

  lemma EmitPlaces(e: Edges, s: State, r: State, at: nat)
    requires Emitted(e, s, r, at) && Stacked(e, s) && Placed(e, s)
    ensures Placed(e, r)
  {
    forall v | v in r.home
      ensures v < |e| && Seen(r, v) && !r.onStack[v]
    {
      if v !in s.home { Suffix(e, s, at, v); }
    }
    forall v | 0 <= v < |e| && Seen(r, v) && !r.onStack[v]
      ensures v in r.home
    {
      if s.onStack[v] { Suffix(e, s, at, v); }
    }
  }

  lemma EmitStacks(e: Edges, s: State, r: State, at: nat)
    requires Emitted(e, s, r, at) && Stacked(e, s)
    ensures Stacked(e, r)
  {
    forall v | 0 <= v < |e| && r.onStack[v]
      ensures v in r.stack
    {
      var i :| 0 <= i < |s.stack| && s.stack[i] == v;
      assert r.stack[i] == v;
    }
  }

  lemma EmitHouses(e: Edges, s: State, r: State, at: nat)
    requires Emitted(e, s, r, at) && Stacked(e, s) && Housed(s)
    ensures Housed(r)
  {
    hide InRange, Reverse;
    var c := s.stack[at..];
    forall i | 0 <= i < |c|
      ensures c[i] in Reverse(c)
    {
      assert Reverse(c)[|c| - 1 - i] == c[i];
    }
  }

  lemma EmitOrders(e: Edges, s: State, r: State, at: nat)
    requires Emitted(e, s, r, at) && Stacked(e, s) && Placed(e, s) && Housed(s) && Ordered(e, s) && LowBounds(e, s)
    ensures Ordered(e, r)
  {
    var last := |s.walk| - 1;
    forall v, k | v in r.home && v < |e| && 0 <= k < |e[v]|
      ensures e[v][k] in r.home && r.home[e[v][k]] <= r.home[v]
    {
      if v !in s.home {
        Suffix(e, s, at, v);
        assert Under(e, s, last, v) && Done(s, last, v, k);
        assert Scanned(e, s, last, v, k);
        Suffix(e, s, at, e[v][k]);
      }
    }
  }

  lemma UpAt(e: Edges, s: State, v: nat)
    requires Shape(e, s) && Up(e, s) && v < |e| && s.onStack[v]
    ensures Climbs(e, s, v)
  {
  }

  /** The nodes stacked since the top walk entry's reach one another through it. */
  lemma SuffixMutual(e: Edges, s: State, u: nat, v: nat)
    requires Shape(e, s) && s.walk != [] && Walked(e, s) && Down(e, s)
    requires u < |e| && v < |e| && Climbs(e, s, u) && s.onStack[v]
    requires s.order[s.walk[|s.walk| - 1].node] <= s.order[v]
    ensures Reaches(GraphOf(e), u, v)
  {
    hide Reaches, GraphOf, InRange;
    var g, last := GraphOf(e), |s.walk| - 1;
    var node := s.walk[last].node;
    var i :| 0 <= i < |s.walk| && ClimbsTo(e, s, u, i);
    assert Descends(e, s, i, node) && Descends(e, s, last, v);
    ReachesTrans(g, u, s.walk[i].node, node);
    ReachesTrans(g, u, node, v);
  }

  lemma EmitMutual(e: Edges, s: State, r: State, at: nat)
    requires Emitted(e, s, r, at) && Stacked(e, s) && Housed(s) && Mutual(e, s)
    requires Walked(e, s) && Down(e, s) && Up(e, s)
    ensures Mutual(e, r)
  {
    hide Reaches, GraphOf, InRange, Walked, Down, Up, Stacked;
    forall u, v | u in r.home && v in r.home && r.home[u] == r.home[v]
      ensures Reaches(GraphOf(e), u, v)
    {
      if u !in s.home || v !in s.home {
        assert u in s.stack[at..] && v in s.stack[at..];
        Suffix(e, s, at, u);
        Suffix(e, s, at, v);
        UpAt(e, s, u);
        SuffixMutual(e, s, u, v);
      }
    }
  }

  lemma EmitDownUp(e: Edges, s: State, r: State, at: nat)
    requires Emitted(e, s, r, at) && Down(e, s) && Up(e, s)
    ensures Down(e, r) && Up(e, r)
  {
    forall i, v | 0 <= i < |r.walk| && 0 <= v < |e|
      ensures Descends(e, r, i, v)
    {
      assert Descends(e, s, i, v);
    }
    forall v | 0 <= v < |e| && r.onStack[v]
      ensures Climbs(e, r, v)
    {
      assert Climbs(e, s, v);
      var i :| 0 <= i < |s.walk| && ClimbsTo(e, s, v, i);
      assert ClimbsTo(e, r, v, i);
    }
  }

  lemma EmitLow(e: Edges, s: State, r: State, at: nat)
    requires Emitted(e, s, r, at) && Walked(e, s) && LowMet(e, s) && LowSmall(e, s)
    ensures LowMet(e, r) && LowSmall(e, r)
  {
    forall i | 0 <= i < |r.walk|
      ensures HasLow(e, r, r.walk[i].node)
    {
      assert HasLow(e, s, s.walk[i].node);
      var u: nat :| LowIs(e, s, s.walk[i].node, u);
      assert LowIs(e, r, r.walk[i].node, u);
    }
  }

  lemma EmitBounds(e: Edges, s: State, r: State, at: nat)
    requires Emitted(e, s, r, at) && LowBounds(e, s)
    ensures LowBounds(e, r)
  {
    forall i, v, k | 0 <= i < |r.walk| && 0 <= v < |e| && 0 <= k < |e[v]| && Under(e, r, i, v) && Done(r, i, v, k)
      ensures Scanned(e, r, i, v, k)
    {
      assert Under(e, s, i, v) && Done(s, i, v, k);
      assert Scanned(e, s, i, v, k);
    }
  }

  lemma EmitKeeps(e: Edges, s: State, at: nat)
    requires Inv(e, s) && Emits(e, s, at)
    ensures Inv(e, Emit(s, at))
  {
    hide Numbered, Stacked, Placed, Housed, Ordered, Mutual, Walked, Down, Up, LowMet, LowSmall, LowBounds;
    EmitEmitted(e, s, at);
    var r := Emit(s, at);
    EmitRest(e, s, r, at);
    EmitPlaces(e, s, r, at);
    EmitStacks(e, s, r, at);
    EmitHouses(e, s, r, at);
    EmitOrders(e, s, r, at);
    EmitMutual(e, s, r, at);
    EmitDownUp(e, s, r, at);
    EmitLow(e, s, r, at);
    EmitBounds(e, s, r, at);
  }

  // ----- how much walking is left -----

  /** One step for each edge of an unnumbered node below `n`, and one to leave it. */
  ghost function Unseen(e: Edges, order: seq<nat>, n: nat): nat
    requires n <= |e| == |order|
  {
    if n == 0 then 0
    else Unseen(e, order, n - 1) + if order[n - 1] != UNVISITED then 0 else |e[n - 1]| + 1
  }

  /** One step for each edge the walk has yet to follow, and one to leave each entry. */
  ghost function Pending(e: Edges, walk: seq<Frame>): nat
    requires InWalk(e, walk)
  {
    if walk == [] then 0
    else
      var top := walk[|walk| - 1];
      Pending(e, walk[..|walk| - 1]) + |e[top.node]| - top.followed + 1
  }

  ghost function Remaining(e: Edges, s: State): nat
    requires Shape(e, s)
  {
    Unseen(e, s.order, |e|) + Pending(e, s.walk)
  }

  ghost function EdgeCount(e: Edges, n: nat): nat
    requires n <= |e|
  {
    if n == 0 then 0 else EdgeCount(e, n - 1) + |e[n - 1]|
  }

  lemma {:induction false} UnseenAtStart(e: Edges, order: seq<nat>, n: nat)
    requires n <= |e| == |order| && forall v :: 0 <= v < |order| ==> order[v] == UNVISITED
    ensures Unseen(e, order, n) == n + EdgeCount(e, n)
  {
    if n > 0 { UnseenAtStart(e, order, n - 1); }
  }

  lemma {:induction false} UnseenAtEnd(e: Edges, order: seq<nat>, n: nat)
    requires n <= |e| == |order| && forall v :: 0 <= v < |order| ==> order[v] != UNVISITED
    ensures Unseen(e, order, n) == 0
  {
    if n > 0 { UnseenAtEnd(e, order, n - 1); }
  }

  lemma {:induction false} UnseenDrops(e: Edges, order: seq<nat>, n: nat, t: nat, x: nat)
    requires n <= |e| == |order| && t < |e| && order[t] == UNVISITED && x != UNVISITED
    ensures Unseen(e, order, n) == Unseen(e, order[t := x], n) + if t < n then |e[t]| + 1 else 0
  {
    if n > 0 { UnseenDrops(e, order, n - 1, t, x); }
  }

  lemma PendingPush(e: Edges, walk: seq<Frame>, t: nat)
    requires InWalk(e, walk) && t < |e|
    ensures InWalk(e, walk + [Frame(t, 0)])
    ensures Pending(e, walk + [Frame(t, 0)]) == Pending(e, walk) + |e[t]| + 1
  {
    assert (walk + [Frame(t, 0)])[..|walk|] == walk;
  }

  lemma PendingFollow(e: Edges, s: State)
    requires s.walk != [] && InWalk(e, s.walk)
    requires var top := s.walk[|s.walk| - 1]; top.followed < |e[top.node]|
    ensures InWalk(e, Follow(s).walk)
    ensures Pending(e, s.walk) == Pending(e, Follow(s).walk) + 1
  {
    assert Follow(s).walk[..|s.walk| - 1] == s.walk[..|s.walk| - 1];
  }

  lemma EnterRemains(e: Edges, s: State, t: nat)
    requires Shape(e, s) && Enters(e, s, t) && s.next < |e|
    ensures Shape(e, Enter(s, t))
    ensures Remaining(e, s) == Remaining(e, Enter(s, t)) + if s.walk == [] then 0 else 1
  {
    hide Unseen, Pending;
    UnseenDrops(e, s.order, |e|, t, s.next);
    if s.walk == [] {
      PendingPush(e, s.walk, t);
    } else {
      PendingFollow(e, s);
      PendingPush(e, Follow(s).walk, t);
    }
  }

  lemma LookRemains(e: Edges, s: State, t: nat)
    requires Shape(e, s) && Looks(e, s, t)
    ensures Shape(e, Look(s, t)) && Remaining(e, s) == Remaining(e, Look(s, t)) + 1
  {
    hide Unseen, Pending;
    PendingFollow(e, s);
  }

  lemma LeaveRemains(e: Edges, s: State, r: State)
    requires Shape(e, s) && Shape(e, r) && Leaves(e, s)
    requires r.order == s.order && r.walk == s.walk[..|s.walk| - 1]
    ensures Remaining(e, s) == Remaining(e, r) + 1
  {
  }

  lemma EmitRemains(e: Edges, s: State, at: nat)
    requires Inv(e, s) && Emits(e, s, at)
    ensures Shape(e, Emit(s, at)) && Remaining(e, s) == Remaining(e, Emit(s, at)) + 1
  {
    hide Numbered, Stacked, Placed, Housed, Ordered, Mutual, Walked, Down, Up, LowMet, LowSmall, LowBounds, Remaining;
    EmitKeeps(e, s, at);
    LeaveRemains(e, s, Emit(s, at));
  }

  // ----- what the finished walk means -----

  ghost predicate Together(components: seq<seq<nat>>, u: nat, v: nat) {
    exists c :: 0 <= c < |components| && u in components[c] && v in components[c]
  }

  /** Every node is in one component, once. */
  ghost predicate Partitions(e: Edges, components: seq<seq<nat>>) {
    && (forall c :: 0 <= c < |components| ==> components[c] != [] && Distinct(components[c]))
    && (forall c, v :: 0 <= c < |components| && v in components[c] ==> v < |e|)
    && (forall v :: 0 <= v < |e| ==> Together(components, v, v))
    && (forall c, d, v :: 0 <= c < |components| && 0 <= d < |components| && v in components[c] && v in components[d] ==> c == d)
  }

  /** No edge leads to a component emitted later. */
  ghost predicate ReverseTopological(e: Edges, components: seq<seq<nat>>) {
    forall c, d, u: nat, v: nat | 0 <= c < |components| && 0 <= d < |components| && u in components[c] && v in components[d] ::
      Edge(GraphOf(e), u, v) ==> d <= c
  }

  ghost predicate Strong(e: Edges, components: seq<seq<nat>>) {
    forall u: nat, v: nat :: u < |e| && v < |e| ==>
      (Together(components, u, v) <==> Reaches(GraphOf(e), u, v) && Reaches(GraphOf(e), v, u))
  }

  ghost predicate Finished(e: Edges, s: State)
    requires Shape(e, s)
  {
    s.walk == [] && forall v :: 0 <= v < |e| ==> s.order[v] != UNVISITED
  }

  lemma AllHoused(e: Edges, s: State)
    requires Shape(e, s) && Finished(e, s) && Placed(e, s) && Up(e, s)
    ensures forall v :: v in s.home <==> 0 <= v < |e|
  {
    forall v | 0 <= v < |e|
      ensures v in s.home
    {
      assert !s.onStack[v];
    }
  }

  /** Reaching only ever leads to the same or to an earlier component. */
  lemma HomeFalls(e: Edges, s: State, u: nat, v: nat)
    requires Shape(e, s) && Ordered(e, s) && u in s.home && Reaches(GraphOf(e), u, v)
    requires forall w :: w in s.home <==> 0 <= w < |e|
    ensures v in s.home && s.home[v] <= s.home[u]
  {
    var inside := set w | w in s.home && s.home[w] <= s.home[u];
    ReachesStaysInside(GraphOf(e), inside, u, v);
  }

  lemma HomeTogether(s: State, u: nat, v: nat)
    requires Housed(s) && u in s.home && v in s.home
    ensures Together(s.components, u, v) <==> s.home[u] == s.home[v]
  {
  }

  lemma FinishedPartitions(e: Edges, s: State)
    requires Shape(e, s) && Housed(s) && Ordered(e, s)
    requires forall v :: v in s.home <==> 0 <= v < |e|
    ensures Partitions(e, s.components) && ReverseTopological(e, s.components)
  {
    forall v | 0 <= v < |e|
      ensures Together(s.components, v, v)
    {
      HomeTogether(s, v, v);
    }
  }

  lemma FinishedStrong(e: Edges, s: State)
    requires Shape(e, s) && Housed(s) && Ordered(e, s) && Mutual(e, s)
    requires forall v :: v in s.home <==> 0 <= v < |e|
    ensures Strong(e, s.components)
  {
    hide Reaches, GraphOf, InRange;
    forall u: nat, v: nat | u < |e| && v < |e|
      ensures Together(s.components, u, v) <==> Reaches(GraphOf(e), u, v) && Reaches(GraphOf(e), v, u)
    {
      HomeTogether(s, u, v);
      if Reaches(GraphOf(e), u, v) && Reaches(GraphOf(e), v, u) {
        HomeFalls(e, s, u, v);
        HomeFalls(e, s, v, u);
      }
    }
  }

  /** A finished walk has emitted the strongly connected components, callees first. */
  lemma FinishedIsRight(e: Edges, s: State)
    requires Inv(e, s) && Finished(e, s)
    ensures Partitions(e, s.components) && Strong(e, s.components) && ReverseTopological(e, s.components)
    ensures Remaining(e, s) == 0
  {
    hide Numbered, Stacked, Placed, Housed, Ordered, Mutual, Walked, Down, Up, LowMet, LowSmall, LowBounds;
    AllHoused(e, s);
    FinishedPartitions(e, s);
    FinishedStrong(e, s);
    UnseenAtEnd(e, s.order, |e|);
  }

  // ----- the method -----

  lemma Starts(e: Edges, s: State)
    requires InRange(e)
    requires |s.order| == |s.low| == |s.onStack| == |e|
    requires forall v :: 0 <= v < |e| ==> s.order[v] == UNVISITED && !s.onStack[v]
    requires s.stack == [] && s.walk == [] && s.components == [] && s.home == map[] && s.next == 0
    ensures Inv(e, s) && Shape(e, s) && Remaining(e, s) == |e| + EdgeCount(e, |e|)
  {
    assert SeenNodes(s) == {};
    UnseenAtStart(e, s.order, |e|);
  }

  lemma TopStacked(e: Edges, s: State) returns (at: nat)
    requires Inv(e, s) && s.walk != []
    ensures at < |s.stack| && s.stack[at] == s.walk[|s.walk| - 1].node
    ensures forall i, j :: 0 <= i < j < |s.stack| ==> s.stack[i] != s.stack[j]
    ensures s.low[s.stack[at]] <= s.order[s.stack[at]]
    ensures |s.walk| > 1 ==> s.walk[|s.walk| - 2].node != s.stack[at]
  {
    hide Numbered, Placed, Housed, Ordered, Mutual, Down, Up, LowMet, LowBounds;
    var node := s.walk[|s.walk| - 1].node;
    assert s.onStack[node];
    assert node in s.stack;
    at :| 0 <= at < |s.stack| && s.stack[at] == node;
  }

  /** Pop `full` down to and including `node`, clearing flags on the way. */
  method PopComponent(full: seq<nat>, flags: seq<bool>, node: nat, ghost at: nat)
    returns (stack: seq<nat>, onStack: seq<bool>, component: seq<nat>)
    requires at < |full| && full[at] == node
    requires forall i :: 0 <= i < |full| ==> full[i] < |flags|
    requires forall i, j :: 0 <= i < j < |full| ==> full[i] != full[j]
    ensures stack == full[..at] && component == Reverse(full[at..])
    ensures |onStack| == |flags|
    ensures forall v :: 0 <= v < |flags| ==> onStack[v] == (flags[v] && v !in full[at..])
  {
    stack, onStack, component := full, flags, [];
    while |stack| > 0
      invariant at < |stack| <= |full| && stack == full[..|stack|]
      invariant component == Reverse(full[|stack|..])
      invariant |onStack| == |flags|
      invariant forall v :: 0 <= v < |flags| ==> onStack[v] == (flags[v] && v !in full[|stack|..])
    {
      var member := stack[|stack| - 1];
      assert full[|stack| - 1..] == [member] + full[|stack|..];
      stack := stack[..|stack| - 1];
      onStack := onStack[member := false];
      component := component + [member];
      if member == node {
        break;
      }
    }
  }

  lemma ParentUnmoved(e: Edges, s: State)
    requires Inv(e, s) && Leaves(e, s)
    requires var node := s.walk[|s.walk| - 1].node; s.low[node] == s.order[node]
    ensures Leave(s).low == s.low
  {
    hide Numbered, Stacked, Placed, Housed, Ordered, Mutual, Walked, Down, Up, LowMet, LowSmall, LowBounds;
    LeaveLowest(e, s);
  }

  /** What the top walk entry may be asked. */
  lemma TopFits(e: Edges, s: State)
    requires Shape(e, s) && s.walk != []
    ensures forall i :: 0 <= i < |s.walk| ==> s.walk[i].node < |e|
    ensures var top := s.walk[|s.walk| - 1];
            top.followed <= |e[top.node]| && forall k :: 0 <= k < |e[top.node]| ==> e[top.node][k] < |e|
    ensures forall i :: 0 <= i < |s.stack| ==> s.stack[i] < |e|
  {
  }

  /**
   The strongly connected components of `edges`. `steps` counts the turns of the inner
   loop over all roots: one for each edge and one for each node.
   */
  method FindComponents(edges: Edges) returns (components: seq<seq<nat>>, ghost steps: nat)
    requires InRange(edges)
    ensures Partitions(edges, components)
    ensures Strong(edges, components)
    ensures ReverseTopological(edges, components)
    ensures steps == |edges| + EdgeCount(edges, |edges|)
  {
    hide Inv, Shape, InRange, Remaining, Partitions, Strong, ReverseTopological, EdgeCount, GraphOf;
    var count := |edges|;
    var order: seq<nat> := seq(count, _ => UNVISITED);
    var low: seq<nat> := seq(count, _ => 0);
    var onStack: seq<bool> := seq(count, _ => false);
    var stack: seq<nat> := [];
    components := [];
    var next: nat := 0;
    steps := 0;
    ghost var home: map<nat, nat> := map[];
    ghost var s := State(order, low, onStack, stack, [], components, home, next);
    Starts(edges, s);
    for root := 0 to count
      invariant s == State(order, low, onStack, stack, [], components, home, next)
      invariant |order| == |low| == |onStack| == count
      invariant Inv(edges, s) && Shape(edges, s)
      invariant steps + Remaining(edges, s) == |edges| + EdgeCount(edges, |edges|)
      invariant forall v :: 0 <= v < root ==> order[v] != UNVISITED
    {
      if order[root] != UNVISITED {
        continue;
      }
      // each entry is a node and how many of its edges have been followed
      var walk := [Frame(root, 0)];
      EnterKeeps(edges, s, root);
      EnterRemains(edges, s, root);
      order := order[root := next];
      low := low[root := next];
      next := next + 1;
      stack := stack + [root];
      onStack := onStack[root := true];
      s := Enter(s, root);
      while |walk| > 0
        invariant s == State(order, low, onStack, stack, walk, components, home, next)
        invariant |order| == |low| == |onStack| == count
        invariant Inv(edges, s) && Shape(edges, s)
        invariant steps + Remaining(edges, s) == |edges| + EdgeCount(edges, |edges|)
        invariant forall v :: 0 <= v <= root ==> order[v] != UNVISITED
        decreases Remaining(edges, s)
      {
        TopFits(edges, s);
        var frame := walk[|walk| - 1];
        var node := frame.node;
        steps := steps + 1;
        if frame.followed < |edges[node]| {
          var target := edges[node][frame.followed];
          walk := walk[|walk| - 1 := frame.(followed := frame.followed + 1)];
          if order[target] == UNVISITED {
            EnterKeeps(edges, s, target);
            EnterRemains(edges, s, target);
            order := order[target := next];
            low := low[target := next];
            next := next + 1;
            stack := stack + [target];
            onStack := onStack[target := true];
            walk := walk + [Frame(target, 0)];
            s := Enter(s, target);
          } else {
            LookKeeps(edges, s, target);
            LookRemains(edges, s, target);
            if onStack[target] {
              low := low[node := Min(low[node], order[target])];
            }
            s := Look(s, target);
          }
          continue;
        }
        ghost var at := TopStacked(edges, s);
        walk := walk[..|walk| - 1];
        if |walk| > 0 {
          var parent := walk[|walk| - 1].node;
          low := low[parent := Min(low[parent], low[node])];
        }
        if low[node] == order[node] {
          ParentUnmoved(edges, s);
          EmitKeeps(edges, s, at);
          EmitRemains(edges, s, at);
          var component;
          stack, onStack, component := PopComponent(stack, onStack, node, at);
          components := components + [component];
          s := Emit(s, at);
          home := s.home;
        } else {
          LeaveKeeps(edges, s);
          LeaveRemains(edges, s, Leave(s));
          s := Leave(s);
        }
      }
    }
    FinishedIsRight(edges, s);
  }
}
