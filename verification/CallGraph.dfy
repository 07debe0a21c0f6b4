/** Which compiled functions can reach themselves through native calls. */
module CallGraph {
  import opened Ir
  import opened Reachability
  import SC = StronglyConnected

  // ----- what a native call resolves to -----

  function Names(functions: seq<Function>): (names: seq<string>)
    ensures |names| == |functions|
    ensures forall i :: 0 <= i < |functions| ==> names[i] == functions[i].QualifiedName()
  {
    seq(|functions|, i requires 0 <= i < |functions| => functions[i].QualifiedName())
  }

  /** The position a name stands for: the last one, where two functions share it. */
  function IndexOf(names: seq<string>): (index: map<string, nat>)
    ensures forall n :: n in index <==> n in names
    ensures forall n :: n in index ==> index[n] < |names| && names[index[n]] == n
    ensures forall n, i :: n in index && index[n] < i < |names| ==> names[i] != n
  {
    if names == [] then map[]
    else IndexOf(names[..|names| - 1])[names[|names| - 1] := |names| - 1]
  }

  /** The names the native calls among `ops` are made by. */
  ghost function Called(ops: seq<Op>): set<string> {
    set op | op in ops && op.CallNative? :: Qualify(op.owner, op.callee)
  }

  /** The native calls of a module, from the function a name stands for to the names it calls. */
  ghost function Calls(functions: seq<Function>): Graph<string> {
    var index := IndexOf(Names(functions));
    map n | n in index :: set c | c in Called(functions[index[n]].Ops()) && c in index
  }

  /** Some operation of some block of `f` calls `c`. */
  ghost predicate CallsTo(f: Function, c: string) {
    exists b, i :: 0 <= b < |f.blocks| && 0 <= i < |f.blocks[b].ops| && f.blocks[b].ops[i].CallNative?
                   && Qualify(f.blocks[b].ops[i].owner, f.blocks[b].ops[i].callee) == c
  }

  /** An edge leads from a name to another just when the last function of the one calls the other. */
  lemma EdgeMeans(functions: seq<Function>, n: string, c: string)
    ensures Edge(Calls(functions), n, c) <==>
            exists u, v :: && 0 <= u < |functions| && 0 <= v < |functions|
                           && functions[u].QualifiedName() == n && functions[v].QualifiedName() == c
                           && (forall w :: u < w < |functions| ==> functions[w].QualifiedName() != n)
                           && CallsTo(functions[u], c)
  {
    hide Called, CallsTo, IndexOf, Names;
    var names := Names(functions);
    var index := IndexOf(names);
    if Edge(Calls(functions), n, c) {
      CalledMeans(functions[index[n]], c);
      assert names[index[n]] == n && names[index[c]] == c;
      assert forall w :: index[n] < w < |functions| ==> functions[w].QualifiedName() == names[w] != n;
    }
    if u: nat, v: nat :| && u < |functions| && v < |functions|
                         && functions[u].QualifiedName() == n && functions[v].QualifiedName() == c
                         && (forall w :: u < w < |functions| ==> functions[w].QualifiedName() != n)
                         && CallsTo(functions[u], c) {
      CalledMeans(functions[u], c);
      assert names[u] == n && names[v] == c;
      assert index[n] == u;
    }
  }

  lemma CalledMeans(f: Function, c: string)
    ensures c in Called(f.Ops()) <==> CallsTo(f, c)
  {
    hide OpsOf;
    if op :| op in f.Ops() && op.CallNative? && Qualify(op.owner, op.callee) == c {
      OpsOfHas(f.blocks, op);
    }
    if b, i :| 0 <= b < |f.blocks| && 0 <= i < |f.blocks[b].ops| && f.blocks[b].ops[i].CallNative?
               && Qualify(f.blocks[b].ops[i].owner, f.blocks[b].ops[i].callee) == c {
      OpsOfHas(f.blocks, f.blocks[b].ops[i]);
    }
  }

  // ----- the edges the analysis builds -----

  function Insert(x: nat, s: seq<nat>): (r: seq<nat>)
    requires forall i, j :: 0 <= i < j < |s| ==> s[i] < s[j]
    ensures forall i, j :: 0 <= i < j < |r| ==> r[i] < r[j]
    ensures forall y :: y in r <==> y == x || y in s
  {
    if s == [] then [x]
    else if x < s[0] then [x] + s
    else if x == s[0] then s
    else
      var rest := Insert(x, s[1..]);
      assert forall y :: y in s <==> y == s[0] || y in s[1..];
      assert forall j :: 0 <= j < |rest| ==> rest[j] in rest && s[0] < rest[j];
      [s[0]] + rest
  }

  /** `sort_unstable` and then `dedup`. */
  function SortedDedup(s: seq<nat>): (r: seq<nat>)
    ensures forall i, j :: 0 <= i < j < |r| ==> r[i] < r[j]
    ensures forall y :: y in r <==> y in s
  {
    if s == [] then [] else Insert(s[0], SortedDedup(s[1..]))
  }

  function Resolved(ops: seq<Op>, index: map<string, nat>): (callees: seq<nat>)
    ensures forall c :: c in callees <==> exists n :: n in Called(ops) && n in index && index[n] == c
  {
    if ops == [] then []
    else
      var rest := Resolved(ops[1..], index);
      var op := ops[0];
      assert Called(ops) == Called(ops[1..]) + Called([op]);
      if op.CallNative? && Qualify(op.owner, op.callee) in index
      then
        assert Called([op]) == {Qualify(op.owner, op.callee)} by { assert op in [op]; }
        [index[Qualify(op.owner, op.callee)]] + rest
      else
        rest
  }

  function EdgesOf(functions: seq<Function>): (edges: SC.Edges)
    ensures |edges| == |functions|
  {
    var index := IndexOf(Names(functions));
    seq(|functions|, u requires 0 <= u < |functions| => SortedDedup(Resolved(functions[u].Ops(), index)))
  }

  /** An edge leads where a call of the function at its foot resolves. */
  lemma EdgeIsCall(functions: seq<Function>, u: nat, v: nat)
    requires u < |functions|
    ensures var index := IndexOf(Names(functions));
            Edge(SC.GraphOf(EdgesOf(functions)), u, v) <==>
            exists n :: n in Called(functions[u].Ops()) && n in index && index[n] == v
  {
    var edges := EdgesOf(functions);
    assert Edge(SC.GraphOf(edges), u, v) <==> v in edges[u];
  }

  lemma EdgesInRange(functions: seq<Function>)
    requires |functions| <= SC.UNVISITED
    ensures SC.InRange(EdgesOf(functions))
  {
    var edges := EdgesOf(functions);
    forall u, k | 0 <= u < |edges| && 0 <= k < |edges[u]|
      ensures edges[u][k] < |edges|
    {
      assert edges[u][k] in edges[u];
    }
  }

  // ----- cycles of positions are cycles of names -----

  lemma {:induction false} PathMaps<A(!new), B(!new)>(g: Graph<A>, h: Graph<B>, f: A -> B, s: set<A>, p: seq<A>)
    requires Closed(g, s) && IsPath(g, p) && p[0] in s
    requires forall u, v :: u in s && Edge(g, u, v) ==> Edge(h, f(u), f(v))
    ensures Reaches(h, f(p[0]), f(p[|p| - 1]))
    decreases |p|
  {
    if |p| == 1 {
      ReachesSelf(h, f(p[0]));
    } else {
      PathMaps(g, h, f, s, p[1..]);
      ReachesStep(h, f(p[0]), f(p[1]));
      ReachesTrans(h, f(p[0]), f(p[1]), f(p[|p| - 1]));
    }
  }

  /** A cycle inside `s` is carried to a cycle by any map that carries the edges inside `s`. */
  lemma CycleMaps<A(!new), B(!new)>(g: Graph<A>, h: Graph<B>, f: A -> B, s: set<A>, u: A)
    requires Closed(g, s) && u in s && OnCycle(g, u)
    requires forall v, w :: v in s && Edge(g, v, w) ==> Edge(h, f(v), f(w))
    ensures OnCycle(h, f(u))
  {
    var v :| Edge(g, u, v) && Reaches(g, v, u);
    var p :| Links(g, p, v, u);
    PathMaps(g, h, f, s, p);
    assert Edge(h, f(u), f(v));
  }

  /** A node on a cycle has an edge leading to it from the cycle. */
  lemma CycleEnters<T(!new)>(g: Graph<T>, s: set<T>, u: T)
    requires OnCycle(g, u) && forall v, w :: Edge(g, v, w) ==> w in s
    ensures u in s
  {
    var v :| Edge(g, u, v) && Reaches(g, v, u);
    ReachesStaysInside(g, s, v, u);
  }

  function NameAt(names: seq<string>, i: nat): string {
    if i < |names| then names[i] else ""
  }

  function PlaceOf(index: map<string, nat>, n: string): nat {
    if n in index then index[n] else 0
  }

  lemma EdgeNamed(functions: seq<Function>, u: nat, v: nat)
    requires Edge(SC.GraphOf(EdgesOf(functions)), u, v)
    ensures u < |functions|
    ensures var names := Names(functions);
            var index := IndexOf(names);
            && v < |names| && v in index.Values && index[names[v]] == v
            && (u in index.Values ==> Edge(Calls(functions), NameAt(names, u), NameAt(names, v)))
  {
    EdgeIsCall(functions, u, v);
  }

  lemma PositionsToNames(functions: seq<Function>, at: nat)
    requires at < |functions| && OnCycle(SC.GraphOf(EdgesOf(functions)), at)
    ensures var names := Names(functions);
            IndexOf(names)[names[at]] == at && OnCycle(Calls(functions), names[at])
  {
    hide OnCycle, Reaches, Edge, Calls, EdgesOf, SC.GraphOf;
    var names := Names(functions);
    var targets: set<nat> := IndexOf(names).Values;
    var g: Graph<nat> := SC.GraphOf(EdgesOf(functions));
    forall u: nat, v: nat | Edge(g, u, v)
      ensures v in targets && v < |names| && (u in targets ==> Edge(Calls(functions), NameAt(names, u), NameAt(names, v)))
    {
      EdgeNamed(functions, u, v);
    }
    CycleEnters(g, targets, at);
    CycleMaps(g, Calls(functions), (i: nat) => NameAt(names, i), targets, at);
  }

  lemma NamesToPositions(functions: seq<Function>, at: nat)
    requires at < |functions|
    requires var names := Names(functions);
             IndexOf(names)[names[at]] == at && OnCycle(Calls(functions), names[at])
    ensures OnCycle(SC.GraphOf(EdgesOf(functions)), at)
  {
    hide OnCycle, Reaches, EdgesOf, SC.GraphOf;
    var index := IndexOf(Names(functions));
    var g: Graph<nat> := SC.GraphOf(EdgesOf(functions));
    forall a, b | a in index.Keys && Edge(Calls(functions), a, b)
      ensures b in index.Keys && Edge(g, PlaceOf(index, a), PlaceOf(index, b))
    {
      EdgeIsCall(functions, index[a], index[b]);
    }
    CycleMaps(Calls(functions), g, (n: string) => PlaceOf(index, n), index.Keys, Names(functions)[at]);
  }

  lemma CycleHasName(functions: seq<Function>, n: string)
    requires OnCycle(Calls(functions), n)
    ensures n in IndexOf(Names(functions))
  {
  }

  // ----- components and cycles -----

  /** A node that reaches a different one and back is on a cycle. */
  lemma MutualIsCycle<T(!new)>(g: Graph<T>, u: T, v: T)
    requires u != v && Reaches(g, u, v) && Reaches(g, v, u)
    ensures OnCycle(g, u)
  {
    var p :| Links(g, p, u, v);
    assert Links(g, p[1..], p[1], v);
    ReachesTrans(g, p[1], v, u);
    assert Edge(g, u, p[1]);
  }

  /** What `[only] => edges[only].contains(only), _ => true` decides about a component. */
  predicate OnACycle(edges: SC.Edges, component: seq<nat>)
    requires forall v :: v in component ==> v < |edges|
  {
    if |component| == 1 then assert component[0] in component; component[0] in edges[component[0]] else true
  }

  lemma ComponentCycles(edges: SC.Edges, components: seq<seq<nat>>, c: nat, u: nat)
    requires SC.Partitions(edges, components) && SC.Strong(edges, components)
    requires c < |components| && u in components[c]
    ensures OnACycle(edges, components[c]) <==> OnCycle(SC.GraphOf(edges), u)
  {
    var g: Graph<nat> := SC.GraphOf(edges);
    var component := components[c];
    if |component| == 1 {
      assert Edge(g, u, u) <==> u in edges[u];
      if u in edges[u] {
        ReachesSelf(g, u);
      }
      if OnCycle(g, u) {
        var v: nat :| Edge(g, u, v) && Reaches(g, v, u);
        assert v < |edges| by { SoleCycle(edges, g, u, v); }
        ReachesStep(g, u, v);
        assert SC.Together(components, u, v);
      }
    } else {
      var w: nat := if component[0] == u then component[1] else component[0];
      assert SC.Together(components, u, w);
      MutualIsCycle(g, u, w);
    }
  }

  lemma SoleCycle(edges: SC.Edges, g: Graph<nat>, u: nat, v: nat)
    requires g == SC.GraphOf(edges) && Reaches(g, v, u) && u < |edges|
    ensures v < |edges|
  {
    var p :| Links(g, p, v, u);
    if |p| > 1 {
      assert Edge(g, p[0], p[1]);
    }
  }

  /**
   The qualified name of every function on a cycle of native calls. A name two functions
   share stands for the last of them, which is the one a call by it resolves to.
   */
  method RecursiveFunctions(m: ModuleIr) returns (recursive: set<string>)
    requires |m.AllFunctions()| <= SC.UNVISITED
    ensures forall n :: n in recursive <==> OnCycle(Calls(m.AllFunctions()), n)
  {
    hide OnCycle, SC.Strong, EdgesOf, OnACycle, SC.GraphOf, Names, IndexOf;
    var functions := m.AllFunctions();
    var names := Names(functions);
    var edges := EdgesOf(functions);
    EdgesInRange(functions);
    var components, _ := SC.FindComponents(edges);
    recursive := {};
    for c := 0 to |components|
      invariant forall n :: n in recursive ==> OnCycle(Calls(functions), n)
      invariant forall d, u :: 0 <= d < c && u in components[d] && OnCycle(SC.GraphOf(edges), u) ==> names[u] in recursive
    {
      var component := components[c];
      forall u: nat | u in component
        ensures OnACycle(edges, component) <==> OnCycle(SC.GraphOf(edges), u)
        ensures OnCycle(SC.GraphOf(edges), u) ==> OnCycle(Calls(functions), names[u])
      {
        ComponentCycles(edges, components, c, u);
        if OnCycle(SC.GraphOf(edges), u) { PositionsToNames(functions, u); }
      }
      if OnACycle(edges, component) {
        recursive := recursive + set u | u in component :: names[u];
      }
    }
    forall n | OnCycle(Calls(functions), n)
      ensures n in recursive
    {
      CycleHasName(functions, n);
      var at := IndexOf(names)[n];
      NamesToPositions(functions, at);
      assert SC.Together(components, at, at);
    }
  }
}
