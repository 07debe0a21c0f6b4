/**
 Every compiled function no import of the module runs: the functions that a method the
 class never installs reaches, and that nothing installed reaches.
 */
module Unreached {
  import opened Ir
  import opened Reachability
  import Finite
  import Metaclass

  // ----- what a function can run next -----

  /** The class a hidden name stands for: the last one, where two share it. */
  function HiddenBy(classes: seq<ClassIr>, name: string): (found: Option<ClassIr>)
    ensures found.Some? ==> exists i :: 0 <= i < |classes| && classes[i] == found.value
                                         && !found.value.exported && found.value.name == name
                                         && forall j :: i < j < |classes| && !classes[j].exported ==> classes[j].name != name
    ensures found.None? ==> forall c :: c in classes && !c.exported ==> c.name != name
  {
    if classes == [] then None
    else
      var last := classes[|classes| - 1];
      if !last.exported && last.name == name then Some(last) else HiddenBy(classes[..|classes| - 1], name)
  }

  /** The function a qualified name stands for: the last one, where two share it. */
  function FunctionBy(functions: seq<Function>, name: string): (found: Option<Function>)
    ensures found.Some? ==> exists i :: 0 <= i < |functions| && functions[i] == found.value
                                         && found.value.QualifiedName() == name
                                         && forall j :: i < j < |functions| ==> functions[j].QualifiedName() != name
    ensures found.None? ==> forall f :: f in functions ==> f.QualifiedName() != name
  {
    if functions == [] then None
    else
      var last := functions[|functions| - 1];
      if last.QualifiedName() == name then Some(last) else FunctionBy(functions[..|functions| - 1], name)
  }

  function MethodNames(methods: seq<Function>): (names: seq<string>)
    ensures |names| == |methods| && forall i :: 0 <= i < |names| ==> names[i] == methods[i].QualifiedName()
  {
    seq(|methods|, i requires 0 <= i < |methods| => methods[i].QualifiedName())
  }

  /** `n` is a method of the hidden class called `c`. */
  predicate IsHiddenMethod(m: ModuleIr, c: string, n: string) {
    var hidden := HiddenBy(m.classes, c);
    hidden.Some? && n in MethodNames(hidden.value.methods)
  }

  /** One operation can run `n` next. */
  predicate CanRun(m: ModuleIr, op: Op, n: string) {
    || (op.CallNative? && n == Qualify(op.owner, op.callee))
    || exists c :: c in op.NamedClasses() && IsHiddenMethod(m, c, n)
  }

  /** Every method of the hidden classes among `classes`. */
  function HiddenMethods(m: ModuleIr, classes: seq<string>): seq<string> {
    if classes == [] then []
    else
      var hidden := HiddenBy(m.classes, classes[0]);
      (if hidden.Some? then MethodNames(hidden.value.methods) else []) + HiddenMethods(m, classes[1..])
  }

  /** Where control can go from `ops`: native callees, and into any hidden class they refer to. */
  function RunsNext(m: ModuleIr, ops: seq<Op>): seq<string> {
    if ops == [] then []
    else
      (if ops[0].CallNative? then [Qualify(ops[0].owner, ops[0].callee)] else [])
      + HiddenMethods(m, ops[0].NamedClasses())
      + RunsNext(m, ops[1..])
  }

  lemma {:induction false} HiddenMethodsIs(m: ModuleIr, classes: seq<string>, n: string)
    ensures n in HiddenMethods(m, classes) <==> exists c :: c in classes && IsHiddenMethod(m, c, n)
  {
    hide HiddenBy, MethodNames;
    if classes != [] {
      HiddenMethodsIs(m, classes[1..], n);
      var own := var hidden := HiddenBy(m.classes, classes[0]);
                 if hidden.Some? then MethodNames(hidden.value.methods) else [];
      assert HiddenMethods(m, classes) == own + HiddenMethods(m, classes[1..]);
      assert n in own <==> IsHiddenMethod(m, classes[0], n);
      assert forall c :: c in classes <==> c == classes[0] || c in classes[1..];
    }
  }

  /** The names a function can run next are exactly those one of its operations can. */
  lemma {:induction false} RunsNextIs(m: ModuleIr, ops: seq<Op>, n: string)
    ensures n in RunsNext(m, ops) <==> exists op :: op in ops && CanRun(m, op, n)
  {
    hide HiddenMethods, IsHiddenMethod;
    if ops != [] {
      var op := ops[0];
      RunsNextIs(m, ops[1..], n);
      HiddenMethodsIs(m, op.NamedClasses(), n);
      var called := if op.CallNative? then [Qualify(op.owner, op.callee)] else [];
      var named := HiddenMethods(m, op.NamedClasses());
      assert RunsNext(m, ops) == called + named + RunsNext(m, ops[1..]);
      assert CanRun(m, op, n) <==> n in called || n in named;
      assert forall other :: other in ops <==> other == op || other in ops[1..];
    }
  }

  ghost function Runs(m: ModuleIr): Graph<string> {
    map f | f in m.AllFunctions() ::
      f.QualifiedName() := set n | n in RunsNext(m, FunctionBy(m.AllFunctions(), f.QualifiedName()).value.Ops())
  }

  lemma RunsIs(m: ModuleIr, u: string, v: string)
    ensures u in Runs(m) <==> FunctionBy(m.AllFunctions(), u).Some?
    ensures Edge(Runs(m), u, v) <==>
            var f := FunctionBy(m.AllFunctions(), u); f.Some? && v in RunsNext(m, f.value.Ops())
  {
  }

  // ----- the walk -----

  /** A function to look at, and the root it was reached from. */
  datatype Pending = Pending(name: string, root: string)

  ghost predicate From(g: Graph<string>, roots: seq<Pending>, n: string, root: string) {
    exists r :: r in roots && r.root == root && Reaches(g, r.name, n)
  }

  ghost predicate FromAny(g: Graph<string>, roots: seq<Pending>, n: string) {
    exists r :: r in roots && Reaches(g, r.name, n)
  }

  /** Everything seen or pending was reached from a root by its label. */
  ghost predicate Explained(g: Graph<string>, roots: seq<Pending>, seen: map<string, string>, pending: seq<Pending>) {
    && (forall n :: n in seen ==> n in g && From(g, roots, n, seen[n]))
    && (forall p :: p in pending ==> From(g, roots, p.name, p.root))
  }

  /** What a seen function runs next, and every root, is seen or pending, where it is known at all. */
  ghost predicate Complete(g: Graph<string>, roots: seq<Pending>, seen: map<string, string>, pending: seq<Pending>) {
    && (forall r :: r in roots ==> Awaited(g, seen, pending, r.name))
    && (forall u, v :: u in seen && Edge(g, u, v) ==> Awaited(g, seen, pending, v))
  }

  ghost predicate Awaited(g: Graph<string>, seen: map<string, string>, pending: seq<Pending>, n: string) {
    n in seen || n !in g || exists p :: p in pending && p.name == n
  }

  /** A label that has spread beyond its own root is that root's own. */
  ghost predicate Blames(seen: map<string, string>, pending: seq<Pending>) {
    && (forall n :: n in seen ==> seen[n] in seen && seen[seen[n]] == seen[n])
    && (forall p :: p in pending ==> p.name == p.root || (p.root in seen && seen[p.root] == p.root))
  }

  function Labelled(names: seq<string>, root: string): (pending: seq<Pending>)
    ensures |pending| == |names| && forall i :: 0 <= i < |names| ==> pending[i] == Pending(names[i], root)
  {
    seq(|names|, i requires 0 <= i < |names| => Pending(names[i], root))
  }

  lemma SkipKeeps(g: Graph<string>, roots: seq<Pending>, seen: map<string, string>, pending: seq<Pending>)
    requires pending != [] && Complete(g, roots, seen, pending)
    requires var last := pending[|pending| - 1]; last.name in seen || last.name !in g
    ensures Complete(g, roots, seen, pending[..|pending| - 1])
  {
    var rest := pending[..|pending| - 1];
    forall n | Awaited(g, seen, pending, n)
      ensures Awaited(g, seen, rest, n)
    {
      assert pending == rest + [pending[|pending| - 1]];
    }
  }

  lemma VisitKeeps(g: Graph<string>, roots: seq<Pending>, seen: map<string, string>, pending: seq<Pending>, next: seq<string>)
    requires pending != [] && Complete(g, roots, seen, pending)
    requires var last := pending[|pending| - 1];
             last.name in g && forall v :: Edge(g, last.name, v) ==> v in next
    ensures var last := pending[|pending| - 1];
            Complete(g, roots, seen[last.name := last.root], pending[..|pending| - 1] + Labelled(next, last.root))
  {
    var last, rest := pending[|pending| - 1], pending[..|pending| - 1];
    var more := rest + Labelled(next, last.root);
    var now := seen[last.name := last.root];
    forall n | Awaited(g, seen, pending, n)
      ensures Awaited(g, now, more, n)
    {
      if p :| p in pending && p.name == n {
        assert pending == rest + [last];
        assert p in rest ==> p in more;
      }
    }
    forall v | v in next
      ensures Awaited(g, now, more, v)
    {
      var i :| 0 <= i < |next| && next[i] == v;
      assert Labelled(next, last.root)[i] == Pending(v, last.root);
      assert Pending(v, last.root) in more;
    }
  }

  lemma VisitExplains(g: Graph<string>, roots: seq<Pending>, seen: map<string, string>, pending: seq<Pending>, next: seq<string>)
    requires pending != [] && Explained(g, roots, seen, pending)
    requires var last := pending[|pending| - 1];
             last.name in g && forall v :: v in next ==> Edge(g, last.name, v)
    ensures var last := pending[|pending| - 1];
            Explained(g, roots, seen[last.name := last.root], pending[..|pending| - 1] + Labelled(next, last.root))
  {
    hide Reaches, Edge;
    var last := pending[|pending| - 1];
    assert last in pending && From(g, roots, last.name, last.root);
    var r :| r in roots && r.root == last.root && Reaches(g, r.name, last.name);
    forall v | v in next
      ensures From(g, roots, v, last.root)
    {
      ReachesEdge(g, r.name, last.name, v);
    }
  }

  /** Follow what runs next from `roots` on, handing each function the label of whatever led to it. */
  method Walk(m: ModuleIr, roots: seq<Pending>) returns (seen: map<string, string>)
    ensures forall n :: n in seen <==> n in Runs(m) && FromAny(Runs(m), roots, n)
    ensures forall n :: n in seen ==> From(Runs(m), roots, n, seen[n])
    ensures (forall r :: r in roots ==> r.name == r.root) ==>
            forall n :: n in seen ==> seen[n] in seen && seen[seen[n]] == seen[n]
  {
    hide Runs, Complete, Explained, From, FromAny, Blames;
    ghost var g := Runs(m);
    seen := map[];
    var pending := roots;
    ghost var own := forall r :: r in roots ==> r.name == r.root;
    StartWalk(g, roots);
    while |pending| > 0
      invariant Explained(g, roots, seen, pending) && Complete(g, roots, seen, pending)
      invariant own ==> Blames(seen, pending)
      decreases |g.Keys - seen.Keys|, |pending|
    {
      var item := pending[|pending| - 1];
      if item.name in seen {
        SkipKeeps(g, roots, seen, pending);
        PopKeeps(g, roots, seen, pending);
        pending := pending[..|pending| - 1];
        continue;
      }
      var target := FunctionBy(m.AllFunctions(), item.name);
      RunsIs(m, item.name, item.name);
      if target.None? {
        SkipKeeps(g, roots, seen, pending);
        PopKeeps(g, roots, seen, pending);
        pending := pending[..|pending| - 1];
        continue;
      }
      var next := RunsNext(m, target.value.Ops());
      forall v
        ensures Edge(g, item.name, v) <==> v in next
      {
        RunsIs(m, item.name, v);
      }
      VisitKeeps(g, roots, seen, pending, next);
      VisitExplains(g, roots, seen, pending, next);
      if own { VisitBlames(seen, pending, next); }
      assert g.Keys - seen[item.name := item.root].Keys < g.Keys - seen.Keys by {
        assert item.name in g.Keys - seen.Keys;
      }
      Finite.ProperSubset(g.Keys - seen[item.name := item.root].Keys, g.Keys - seen.Keys);
      pending := pending[..|pending| - 1] + Labelled(next, item.root);
      seen := seen[item.name := item.root];
    }
    EndWalk(g, roots, seen, pending, own);
  }

  lemma StartWalk(g: Graph<string>, roots: seq<Pending>)
    ensures Explained(g, roots, map[], roots) && Complete(g, roots, map[], roots)
    ensures (forall r :: r in roots ==> r.name == r.root) ==> Blames(map[], roots)
  {
    forall r | r in roots
      ensures From(g, roots, r.name, r.root)
    {
      ReachesSelf(g, r.name);
    }
  }

  lemma PopKeeps(g: Graph<string>, roots: seq<Pending>, seen: map<string, string>, pending: seq<Pending>)
    requires pending != []
    ensures Explained(g, roots, seen, pending) ==> Explained(g, roots, seen, pending[..|pending| - 1])
    ensures Blames(seen, pending) ==> Blames(seen, pending[..|pending| - 1])
  {
  }

  lemma VisitBlames(seen: map<string, string>, pending: seq<Pending>, next: seq<string>)
    requires pending != [] && Blames(seen, pending) && pending[|pending| - 1].name !in seen
    ensures var last := pending[|pending| - 1];
            Blames(seen[last.name := last.root], pending[..|pending| - 1] + Labelled(next, last.root))
  {
    var last := pending[|pending| - 1];
    assert last in pending;
  }

  lemma EndWalk(g: Graph<string>, roots: seq<Pending>, seen: map<string, string>, pending: seq<Pending>, own: bool)
    requires pending == [] && Explained(g, roots, seen, pending) && Complete(g, roots, seen, pending)
    requires own ==> Blames(seen, pending)
    ensures forall n :: n in seen <==> n in g && FromAny(g, roots, n)
    ensures forall n :: n in seen ==> From(g, roots, n, seen[n])
    ensures own ==> forall n :: n in seen ==> seen[n] in seen && seen[seen[n]] == seen[n]
  {
    forall n | n in g && FromAny(g, roots, n)
      ensures n in seen
    {
      var r :| r in roots && Reaches(g, r.name, n);
      assert Awaited(g, seen, pending, r.name);
      SeenIsClosed(g, seen, r.name, n);
    }
  }

  /** What a seen or unknown name reaches is seen, where it is known. */
  lemma SeenIsClosed(g: Graph<string>, seen: map<string, string>, u: string, v: string)
    requires forall x, y :: x in seen && Edge(g, x, y) ==> y in seen || y !in g
    requires (u in seen || u !in g) && Reaches(g, u, v) && v in g
    ensures v in seen
  {
    var p :| Links(g, p, u, v);
    PathSeen(g, seen, p);
  }

  lemma {:induction false} PathSeen(g: Graph<string>, seen: map<string, string>, p: seq<string>)
    requires forall x, y :: x in seen && Edge(g, x, y) ==> y in seen || y !in g
    requires IsPath(g, p) && (p[0] in seen || p[0] !in g) && p[|p| - 1] in g
    ensures p[|p| - 1] in seen
    decreases |p|
  {
    if |p| > 1 { PathSeen(g, seen, p[1..]); }
  }

  // ----- what a class installs -----

  /** The methods python reaches by name, through the method table. */
  predicate InTable(c: ClassIr, f: Function) {
    && f.name != "__new__" && !f.nested && c.resume != Some(f.name)
    && !exists p :: p in c.properties && p.Holds(f.name)
  }

  predicate Rebinds(c: ClassIr, f: Function) {
    f.name in c.constants
  }

  /** `f` carries decorators that only mark, and has a table entry to carry the marks. */
  predicate HasMarkedEntry(c: ClassIr, f: Function) {
    && f.decorators != [] && (forall d :: d in f.decorators ==> d.marksOnly)
    && exists entry :: entry in c.methods && InTable(c, entry) && entry.name == f.name
  }

  predicate InstallsTheBodyAnswer(c: ClassIr, f: Function) {
    c.exported && (Rebinds(c, f) || (f.decorators != [] && !HasMarkedEntry(c, f)))
  }

  predicate IsHalf(c: ClassIr, f: Function) {
    exists p :: p in c.properties && p.Holds(f.name)
  }

  ghost predicate CarriedHalf(m: ModuleIr, c: ClassIr, f: Function) {
    Metaclass.ThroughItsMetaclass(m, c) && IsHalf(c, f)
  }

  ghost predicate NeverInstalled(m: ModuleIr, c: ClassIr, f: Function) {
    CarriedHalf(m, c, f) || InstallsTheBodyAnswer(c, f)
  }

  // what the methods of one class called `n` amount to

  ghost predicate ShadowedBy(m: ModuleIr, c: ClassIr, n: string) {
    exists f :: f in c.methods && f.QualifiedName() == n && NeverInstalled(m, c, f)
  }

  ghost predicate InstalledBy(m: ModuleIr, c: ClassIr, n: string) {
    exists f :: f in c.methods && f.QualifiedName() == n && !NeverInstalled(m, c, f)
  }

  ghost predicate CarriedBy(m: ModuleIr, c: ClassIr, n: string) {
    exists f :: f in c.methods && f.QualifiedName() == n && CarriedHalf(m, c, f)
  }

  ghost predicate ReboundBy(c: ClassIr, n: string) {
    exists f :: f in c.methods && f.QualifiedName() == n && Rebinds(c, f)
  }

  /** Some exported class has a method called `n` it never installs. */
  ghost predicate Shadowed(m: ModuleIr, n: string) {
    exists c :: c in m.classes && c.exported && ShadowedBy(m, c, n)
  }

  /** `n` is a module-level function, or a method some exported class installs. */
  ghost predicate Installed(m: ModuleIr, n: string) {
    n in MethodNames(m.functions) || exists c :: c in m.classes && c.exported && InstalledBy(m, c, n)
  }

  ghost predicate IsCarried(m: ModuleIr, n: string) {
    exists c :: c in m.classes && c.exported && CarriedBy(m, c, n)
  }

  ghost predicate IsRebound(m: ModuleIr, n: string) {
    exists c :: c in m.classes && c.exported && ReboundBy(c, n)
  }

  /** What the pass reports: reached from a method never installed, and from nothing installed. */
  ghost predicate Dead(m: ModuleIr, n: string) {
    && (exists s :: Shadowed(m, s) && Reaches(Runs(m), s, n))
    && !(exists i :: Installed(m, i) && Reaches(Runs(m), i, n))
  }

  // ----- collecting the roots -----

  /** Sort the methods of one exported class into those never installed and the rest. */
  method SortMethods(m: ModuleIr, c: ClassIr)
    returns (shadowed: seq<string>, installed: seq<string>, carried: seq<string>, rebound: seq<string>)
    ensures forall n :: n in shadowed <==> ShadowedBy(m, c, n)
    ensures forall n :: n in installed <==> InstalledBy(m, c, n)
    ensures forall n :: n in carried <==> CarriedBy(m, c, n)
    ensures forall n :: n in rebound <==> ReboundBy(c, n)
  {
    hide Metaclass.ThroughItsMetaclass, InstallsTheBodyAnswer, IsHalf, Rebinds;
    shadowed, installed, carried, rebound := [], [], [], [];
    var through := Metaclass.BuiltThroughItsMetaclass(m, c);
    for i := 0 to |c.methods|
      invariant forall n :: n in shadowed <==>
                  exists j :: 0 <= j < i && c.methods[j].QualifiedName() == n && NeverInstalled(m, c, c.methods[j])
      invariant forall n :: n in installed <==>
                  exists j :: 0 <= j < i && c.methods[j].QualifiedName() == n && !NeverInstalled(m, c, c.methods[j])
      invariant forall n :: n in carried <==>
                  exists j :: 0 <= j < i && c.methods[j].QualifiedName() == n && CarriedHalf(m, c, c.methods[j])
      invariant forall n :: n in rebound <==>
                  exists j :: 0 <= j < i && c.methods[j].QualifiedName() == n && Rebinds(c, c.methods[j])
    {
      var f := c.methods[i];
      var name := f.QualifiedName();
      if Rebinds(c, f) {
        rebound := rebound + [name];
      }
      var half := through && IsHalf(c, f);
      if half {
        carried := carried + [name];
      }
      if half || InstallsTheBodyAnswer(c, f) {
        shadowed := shadowed + [name];
      } else {
        installed := installed + [name];
      }
    }
  }

  /** The methods of every exported class, sorted, the module's functions with those installed. */
  method SortAll(m: ModuleIr)
    returns (shadowed: seq<string>, installed: seq<string>, carried: seq<string>, rebound: seq<string>)
    ensures forall n :: n in shadowed <==> Shadowed(m, n)
    ensures forall n :: n in installed <==> Installed(m, n)
    ensures forall n :: n in carried <==> IsCarried(m, n)
    ensures forall n :: n in rebound <==> IsRebound(m, n)
  {
    hide ShadowedBy, InstalledBy, CarriedBy, ReboundBy;
    shadowed, installed, carried, rebound := [], MethodNames(m.functions), [], [];
    for i := 0 to |m.classes|
      invariant forall n :: n in shadowed <==>
                  exists j :: 0 <= j < i && m.classes[j].exported && ShadowedBy(m, m.classes[j], n)
      invariant forall n :: n in installed <==>
                  n in MethodNames(m.functions) || exists j :: 0 <= j < i && m.classes[j].exported && InstalledBy(m, m.classes[j], n)
      invariant forall n :: n in carried <==>
                  exists j :: 0 <= j < i && m.classes[j].exported && CarriedBy(m, m.classes[j], n)
      invariant forall n :: n in rebound <==>
                  exists j :: 0 <= j < i && m.classes[j].exported && ReboundBy(m.classes[j], n)
    {
      if m.classes[i].exported {
        var s, l, c, r := SortMethods(m, m.classes[i]);
        shadowed, installed, carried, rebound := shadowed + s, installed + l, carried + c, rebound + r;
      }
    }
  }

  // ----- the report -----

  datatype Reason = Carried | Rebound | Decorated | ReachedFrom(root: string)

  datatype Report = Report(name: string, reason: Reason)

  /** The names among `functions` nothing running the module runs, in order. */
  ghost function DeadAmong(m: ModuleIr, functions: seq<Function>): seq<string> {
    if functions == [] then []
    else
      var last := functions[|functions| - 1].QualifiedName();
      DeadAmong(m, functions[..|functions| - 1]) + if Dead(m, last) then [last] else []
  }

  function NamesOf(reports: seq<Report>): (names: seq<string>)
    ensures |names| == |reports|
  {
    seq(|reports|, i requires 0 <= i < |reports| => reports[i].name)
  }

  lemma NamesGrow(reports: seq<Report>, r: Report)
    ensures NamesOf(reports + [r]) == NamesOf(reports) + [r.name]
  {
  }

  lemma DeadStep(m: ModuleIr, functions: seq<Function>, i: nat)
    requires i < |functions|
    ensures DeadAmong(m, functions[..i + 1]) ==
            DeadAmong(m, functions[..i]) + if Dead(m, functions[i].QualifiedName()) then [functions[i].QualifiedName()] else []
  {
    hide Dead;
    assert functions[..i + 1][..i] == functions[..i];
  }

  lemma NothingReported(m: ModuleIr)
    ensures NamesOf([]) == [] == DeadAmong(m, [])
  {
  }

  /** A reported function is its own root, or another reported one is and reaches it. */
  ghost predicate Justified(m: ModuleIr, report: Report) {
    match report.reason
    case Carried => Shadowed(m, report.name) && IsCarried(m, report.name)
    case Rebound => Shadowed(m, report.name) && !IsCarried(m, report.name) && IsRebound(m, report.name)
    case Decorated => Shadowed(m, report.name) && !IsCarried(m, report.name) && !IsRebound(m, report.name)
    case ReachedFrom(root) =>
      root != report.name && Shadowed(m, root) && Dead(m, root) && Reaches(Runs(m), root, report.name)
  }

  /** What the two walks establish about the methods never installed. */
  ghost predicate Walked(m: ModuleIr, dead: map<string, string>, live: map<string, string>) {
    && (forall n :: n in live <==> n in Runs(m) && exists i :: Installed(m, i) && Reaches(Runs(m), i, n))
    && (forall n :: n in dead <==> n in Runs(m) && exists s :: Shadowed(m, s) && Reaches(Runs(m), s, n))
    && (forall n :: n in dead ==> Shadowed(m, dead[n]) && Reaches(Runs(m), dead[n], n))
    && (forall n :: n in dead ==> dead[n] in dead && dead[dead[n]] == dead[n])
  }

  function Own(names: seq<string>): (roots: seq<Pending>)
    ensures |roots| == |names| && forall i :: 0 <= i < |names| ==> roots[i] == Pending(names[i], names[i])
  {
    seq(|names|, i requires 0 <= i < |names| => Pending(names[i], names[i]))
  }

  lemma LabelledReach(g: Graph<string>, names: seq<string>, root: string, n: string)
    ensures FromAny(g, Labelled(names, root), n) <==> exists i :: i in names && Reaches(g, i, n)
  {
    var roots := Labelled(names, root);
    if i :| i in names && Reaches(g, i, n) {
      var k :| 0 <= k < |names| && names[k] == i;
      assert roots[k] in roots && roots[k].name == i;
    }
  }

  lemma OwnReach(g: Graph<string>, names: seq<string>, n: string)
    ensures FromAny(g, Own(names), n) <==> exists s :: s in names && Reaches(g, s, n)
    ensures forall r :: From(g, Own(names), n, r) ==> r in names && Reaches(g, r, n)
  {
    var roots := Own(names);
    if s :| s in names && Reaches(g, s, n) {
      var k :| 0 <= k < |names| && names[k] == s;
      assert roots[k] in roots && roots[k].name == s;
    }
  }

  /** A function blamed on a root: the root is dead too, and blames itself. */
  lemma BlamedRoot(m: ModuleIr, dead: map<string, string>, live: map<string, string>, n: string)
    requires Walked(m, dead, live) && n in dead && n !in live
    ensures dead[n] in dead && dead[n] !in live && dead[dead[n]] == dead[n] && Dead(m, dead[n]) && Dead(m, n)
  {
    hide Runs, Shadowed, Installed, Reaches;
    var g := Runs(m);
    var root := dead[n];
    assert root in g;
    forall i | Installed(m, i) && Reaches(g, i, root)
      ensures Reaches(g, i, n)
    {
      ReachesTrans(g, i, root, n);
    }
  }

  lemma DeadIs(m: ModuleIr, dead: map<string, string>, live: map<string, string>, n: string)
    requires Walked(m, dead, live) && n in Runs(m)
    ensures Dead(m, n) <==> n in dead && n !in live
  {
    hide Runs, Shadowed, Installed, Reaches;
  }

  method WalkBoth(m: ModuleIr, shadowed: seq<string>, installed: seq<string>)
    returns (dead: map<string, string>, live: map<string, string>)
    requires forall n :: n in shadowed <==> Shadowed(m, n)
    requires forall n :: n in installed <==> Installed(m, n)
    ensures Walked(m, dead, live)
  {
    hide Runs, Shadowed, Installed, Reaches, From, FromAny;
    live := Walk(m, Labelled(installed, ""));
    dead := Walk(m, Own(shadowed));
    forall n
      ensures FromAny(Runs(m), Labelled(installed, ""), n) <==> exists i :: i in installed && Reaches(Runs(m), i, n)
    {
      LabelledReach(Runs(m), installed, "", n);
    }
    forall n
      ensures FromAny(Runs(m), Own(shadowed), n) <==> exists s :: s in shadowed && Reaches(Runs(m), s, n)
      ensures forall r :: From(Runs(m), Own(shadowed), n, r) ==> r in shadowed && Reaches(Runs(m), r, n)
    {
      OwnReach(Runs(m), shadowed, n);
    }
  }

  function ReasonFor(name: string, root: string, carried: seq<string>, rebound: seq<string>): (reason: Reason)
    ensures reason.ReachedFrom? <==> root != name
    ensures reason.ReachedFrom? ==> reason.root == root
  {
    if root == name && name in carried then Carried
    else if root == name && name in rebound then Rebound
    else if root == name then Decorated
    else ReachedFrom(root)
  }

  lemma ReasonJustified(m: ModuleIr, dead: map<string, string>, live: map<string, string>,
                        carried: seq<string>, rebound: seq<string>, n: string)
    requires Walked(m, dead, live) && n in dead && n !in live
    requires forall x :: x in carried <==> IsCarried(m, x)
    requires forall x :: x in rebound <==> IsRebound(m, x)
    ensures Justified(m, Report(n, ReasonFor(n, dead[n], carried, rebound)))
  {
    hide Runs, Shadowed, Installed, Reaches, IsCarried, IsRebound, Walked, Dead;
    BlamedRoot(m, dead, live, n);
    WalkedRoot(m, dead, live, n);
  }

  /** The compiled functions no import of the module runs, in module order, each with why. */
  method FindUnreached(m: ModuleIr) returns (reports: seq<Report>)
    ensures NamesOf(reports) == DeadAmong(m, m.AllFunctions())
    ensures forall r :: r in reports ==> Justified(m, r)
    ensures forall r, q :: r in reports && q in reports && r.reason == ReachedFrom(q.name) ==> !q.reason.ReachedFrom?
  {
    hide Runs, Shadowed, Installed, Reaches, IsCarried, IsRebound, Walked, Dead, Justified, ReasonFor, NamesOf, DeadAmong;
    var shadowed, installed, carried, rebound := SortAll(m);
    var dead, live := WalkBoth(m, shadowed, installed);
    reports := [];
    var functions := m.AllFunctions();
    NothingReported(m);
    for i := 0 to |functions|
      invariant NamesOf(reports) == DeadAmong(m, functions[..i])
      invariant forall r :: r in reports ==> Justified(m, r)
      invariant forall r :: r in reports ==> r.name in dead && r.name !in live
      invariant forall r :: r in reports && r.reason.ReachedFrom? ==> r.reason.root == dead[r.name] != r.name
    {
      var name := functions[i].QualifiedName();
      RunsIs(m, name, name);
      DeadIs(m, dead, live, name);
      DeadStep(m, functions, i);
      if name in dead && name !in live {
        var reason := ReasonFor(name, dead[name], carried, rebound);
        ReasonJustified(m, dead, live, carried, rebound, name);
        NamesGrow(reports, Report(name, reason));
        reports := reports + [Report(name, reason)];
      }
    }
    assert functions[..|functions|] == functions;
    forall r, q | r in reports && q in reports && r.reason == ReachedFrom(q.name)
      ensures !q.reason.ReachedFrom?
    {
      BlamedRoot(m, dead, live, r.name);
    }
  }

  lemma WalkedRoot(m: ModuleIr, dead: map<string, string>, live: map<string, string>, n: string)
    requires Walked(m, dead, live) && n in dead
    ensures Shadowed(m, dead[n]) && Reaches(Runs(m), dead[n], n)
  {
  }

  /** The root a function is blamed on is reported itself. */
  lemma RootIsReported(m: ModuleIr, r: Report)
    requires Justified(m, r) && r.reason.ReachedFrom?
    ensures r.reason.root in DeadAmong(m, m.AllFunctions())
  {
    ShadowedIsFunction(m, r.reason.root);
    DeadIsListed(m, m.AllFunctions(), r.reason.root);
  }

  lemma ShadowedIsFunction(m: ModuleIr, n: string)
    requires Shadowed(m, n)
    ensures exists f :: f in m.AllFunctions() && f.QualifiedName() == n
  {
    var c :| c in m.classes && c.exported && ShadowedBy(m, c, n);
    var f :| f in c.methods && f.QualifiedName() == n && NeverInstalled(m, c, f);
    MethodIsFunction(m.classes, c, f);
    assert f in m.AllFunctions();
  }

  lemma {:induction false} MethodIsFunction(classes: seq<ClassIr>, c: ClassIr, f: Function)
    requires c in classes && f in c.methods
    ensures f in MethodsOf(classes)
  {
    if c != classes[0] { MethodIsFunction(classes[1..], c, f); }
  }

  lemma {:induction false} DeadIsListed(m: ModuleIr, functions: seq<Function>, n: string)
    requires Dead(m, n) && exists f :: f in functions && f.QualifiedName() == n
    ensures n in DeadAmong(m, functions)
  {
    hide Dead;
    var f :| f in functions && f.QualifiedName() == n;
    if f != functions[|functions| - 1] {
      assert f in functions[..|functions| - 1];
      DeadIsListed(m, functions[..|functions| - 1], n);
    }
  }

  // ----- the word "only" -----

  /** Of the methods never installed, `root` alone reaches `n`. */
  ghost predicate Only(m: ModuleIr, root: string, n: string) {
    forall s :: Shadowed(m, s) && Reaches(Runs(m), s, n) ==> s == root
  }

  /** A blamed root is the only one just when a walk from the others does not come to the function. */
  lemma OnlyExactlyWhen(m: ModuleIr, r: Report, others: seq<string>)
    requires Justified(m, r) && r.reason.ReachedFrom?
    requires forall s :: s in others <==> Shadowed(m, s) && s != r.reason.root
    ensures Only(m, r.reason.root, r.name) <==> !FromAny(Runs(m), Own(others), r.name)
  {
    hide Runs, Shadowed, Reaches;
    OwnReach(Runs(m), others, r.name);
  }

  function Caller(name: string): Function {
    Function(name, Some("C"), 0, [], [Block([CallNative(Some("H"), "run", None, [])], Unreachable, None, None, None)], [], false)
  }

  function Called(): Function {
    Function("run", Some("H"), 0, [], [], [], false)
  }

  /** A class that binds both its methods again, and a hidden one whose method they both call. */
  function Shared(): ModuleIr {
    ModuleIr([], [ClassIr("C", true, false, None, None, None, ["a", "b"], [Caller("a"), Caller("b")], [], []),
                  ClassIr("H", false, false, None, None, None, [], [Called()], [], [])])
  }

  lemma SharedFunctions()
    ensures Shared().AllFunctions() == [Caller("a"), Caller("b"), Called()]
  {
    var classes := Shared().classes;
    assert MethodsOf(classes[1..][1..]) == [];
    assert MethodsOf(classes[1..]) == [Called()];
  }

  lemma SharedBy(name: string)
    requires name == "a" || name == "b"
    ensures FunctionBy(Shared().AllFunctions(), "C." + name) == Some(Caller(name))
  {
    hide FunctionBy;
    var functions, f := Shared().AllFunctions(), Caller(name);
    SharedFunctions();
    assert f.QualifiedName() == "C." + name;
    assert functions[0] == Caller("a") && functions[1] == Caller("b") && f in functions;
    var found := FunctionBy(functions, "C." + name);
    assert Called().QualifiedName()[0] == 'H';
    assert Caller("a").QualifiedName()[2] == 'a' && Caller("b").QualifiedName()[2] == 'b';
    assert found.Some? && found.value.QualifiedName()[2] == name[0] && found.value.QualifiedName()[0] == 'C';
  }

  lemma SharedRuns(name: string)
    ensures "H.run" in RunsNext(Shared(), Caller(name).Ops())
  {
    hide RunsNext, HiddenBy;
    var f, op := Caller(name), CallNative(Some("H"), "run", None, []);
    assert f.Ops() == f.blocks[0].ops + OpsOf(f.blocks[1..]) && f.Ops()[0] == op;
    assert Qualify(Some("H"), "run") == "H.run";
    assert CanRun(Shared(), op, "H.run");
    RunsNextIs(Shared(), f.Ops(), "H.run");
  }

  lemma SharedIsShadowed(name: string)
    requires name == "a" || name == "b"
    ensures Shadowed(Shared(), "C." + name)
  {
    hide Metaclass.ThroughItsMetaclass;
    var m, f := Shared(), Caller(name);
    var c := m.classes[0];
    assert f in c.methods by { assert c.methods[0] == Caller("a") && c.methods[1] == Caller("b"); }
    assert Rebinds(c, f) by { assert c.constants[0] == "a" && c.constants[1] == "b"; }
    assert NeverInstalled(m, c, f) && f.QualifiedName() == "C." + name;
    assert c in m.classes && ShadowedBy(m, c, "C." + name);
  }

  lemma SharedReaches(name: string)
    requires name == "a" || name == "b"
    ensures Shadowed(Shared(), "C." + name) && Reaches(Runs(Shared()), "C." + name, "H.run")
  {
    hide Runs, Shadowed, FunctionBy, RunsNext;
    var m, n := Shared(), "C." + name;
    SharedIsShadowed(name);
    SharedBy(name);
    SharedRuns(name);
    RunsIs(m, n, "H.run");
    ReachesStep(Runs(m), n, "H.run");
  }

  /** Two methods reach a function that is reported, whichever of them is said to be the only one. */
  lemma OnlyIsSaidOfTwo()
    ensures Dead(Shared(), "H.run") && forall root :: !Only(Shared(), root, "H.run")
  {
    hide Runs, Reaches, Shadowed;
    SharedReaches("a");
    SharedReaches("b");
    assert "C." + "a" != "C." + "b" by { assert ("C." + "a")[2] != ("C." + "b")[2]; }
    forall i ensures !Installed(Shared(), i) { NothingInstalled(i); }
  }

  lemma NothingInstalled(i: string)
    ensures !Installed(Shared(), i)
  {
    hide Metaclass.ThroughItsMetaclass;
    var m := Shared();
    forall c | c in m.classes && c.exported
      ensures !InstalledBy(m, c, i)
    {
      assert c == m.classes[0];
      forall f | f in c.methods
        ensures NeverInstalled(m, c, f)
      {
        assert Rebinds(c, f);
      }
    }
  }

  // ----- what is installed, by field -----

  /** Python reaches the method `f` of `c` by name: through the method table. */
  predicate IsEntry(c: ClassIr, f: Function) {
    && f.name != "__new__" && !f.nested && c.resume != Some(f.name)
    && forall p :: p in c.properties ==> p.getter != Some(f.name) && p.setter != Some(f.name) && p.deleter != Some(f.name)
  }

  /**
   A method that is no carried half is never installed just when its class is exported and the
   class body binds its name again, or its decorators leave nothing in the table to mark.
   */
  lemma NeverInstalledMeans(m: ModuleIr, c: ClassIr, f: Function)
    requires !CarriedHalf(m, c, f)
    ensures NeverInstalled(m, c, f) <==>
            && c.exported
            && (|| f.name in c.constants
                || (exists d :: d in f.decorators && !d.marksOnly)
                || (f.decorators != [] && forall entry :: entry in c.methods && entry.name == f.name ==> !IsEntry(c, entry)))
  {
    hide Metaclass.ThroughItsMetaclass;
    assert forall entry :: entry in c.methods ==> (IsEntry(c, entry) <==> InTable(c, entry));
  }

  /** A carried half is a getter, setter or deleter of a class built through its metaclass. */
  lemma CarriedHalfMeans(m: ModuleIr, c: ClassIr, f: Function)
    ensures CarriedHalf(m, c, f) <==>
            && Metaclass.ThroughItsMetaclass(m, c)
            && exists p :: p in c.properties
                           && (p.getter == Some(f.name) || p.setter == Some(f.name) || p.deleter == Some(f.name))
  {
    hide Metaclass.ThroughItsMetaclass;
    if p :| p in c.properties && (p.getter == Some(f.name) || p.setter == Some(f.name) || p.deleter == Some(f.name)) {
      assert p.Holds(f.name);
    }
  }
}
