/** Questions answered by walking a class's base chain a bounded number of steps. */
module BaseChain {
  import Finite
  import opened Ir

  function Find(classes: seq<ClassIr>, name: string): (found: Option<ClassIr>)
    ensures found.Some? ==> found.value in classes && found.value.name == name
    ensures found.None? ==> forall c :: c in classes ==> c.name != name
  {
    if classes == [] then None
    else if classes[0].name == name then Some(classes[0])
    else Find(classes[1..], name)
  }

  /** The class of this module that `c` continues the layout of. */
  function Next(m: ModuleIr, c: ClassIr): (next: Option<ClassIr>)
    ensures next.Some? ==> next.value in m.classes
  {
    if c.base.Some? && c.base.value.InModule? then Find(m.classes, c.base.value.name) else None
  }

  /** The class `k` bases up from `c`, where the chain goes that far. */
  function Up(m: ModuleIr, c: ClassIr, k: nat): Option<ClassIr> {
    if k == 0 then Some(c)
    else
      var below := Up(m, c, k - 1);
      if below.Some? then Next(m, below.value) else None
  }

  /** The chain comes to a class standing on nothing but `object`, `k` bases up. */
  ghost predicate Rests(m: ModuleIr, c: ClassIr, k: nat) {
    Up(m, c, k).Some? && Up(m, c, k).value.base.None?
  }

  predicate Unslotted(c: ClassIr) {
    c.slots.None? || "__weakref__" in c.slots.value
  }

  /** Python would let an instance be weakly referenced, and the layout is this module's all the way down. */
  ghost predicate Weakly(m: ModuleIr, c: ClassIr) {
    && c.exported && !c.environment && c.resume.None?
    && exists k: nat :: Rests(m, c, k) && UnslottedBelow(m, c, k + 1)
  }

  /** One of the first `k` classes of the chain leaves room for a weak-reference list. */
  ghost predicate UnslottedBelow(m: ModuleIr, c: ClassIr, k: nat) {
    exists j: nat :: j < k && Up(m, c, j).Some? && Unslotted(Up(m, c, j).value)
  }

  // ----- the bound is enough -----

  lemma {:induction false} UpStops(m: ModuleIr, c: ClassIr, j: nat, k: nat)
    requires j <= k && Up(m, c, j).None?
    ensures Up(m, c, k).None?
  {
    if j < k { UpStops(m, c, j, k - 1); }
  }

  lemma {:induction false} UpRepeats(m: ModuleIr, c: ClassIr, i: nat, j: nat, t: nat)
    requires Up(m, c, i) == Up(m, c, j)
    ensures Up(m, c, i + t) == Up(m, c, j + t)
  {
    if t > 0 { UpRepeats(m, c, i, j, t - 1); }
  }

  /** A chain that comes to rest visits no class twice. */
  lemma RestsVisitsOnce(m: ModuleIr, c: ClassIr, k: nat, i: nat, j: nat)
    requires Rests(m, c, k) && i < j <= k
    ensures Up(m, c, i) != Up(m, c, j)
  {
    if Up(m, c, i) == Up(m, c, j) {
      UpRepeats(m, c, i, j, k - j);
      UpStops(m, c, i + (k - j) + 1, k);
      assert false;
    }
  }

  /** The classes from one base up to `k`. */
  ghost function Visited(m: ModuleIr, c: ClassIr, k: nat): (visited: set<ClassIr>) {
    if k == 0 then {}
    else Visited(m, c, k - 1) + if Up(m, c, k).Some? then {Up(m, c, k).value} else {}
  }

  ghost predicate VisitedBy(m: ModuleIr, c: ClassIr, k: nat, x: ClassIr) {
    exists j: nat :: 1 <= j <= k && Up(m, c, j) == Some(x)
  }

  lemma {:induction false} VisitedIs(m: ModuleIr, c: ClassIr, k: nat, x: ClassIr)
    requires x in Visited(m, c, k)
    ensures x in m.classes && VisitedBy(m, c, k, x)
  {
    if Up(m, c, k) != Some(x) {
      VisitedIs(m, c, k - 1, x);
    }
  }

  lemma {:induction false} VisitedCount(m: ModuleIr, c: ClassIr, k: nat, end: nat)
    requires k <= end && Rests(m, c, end)
    ensures |Visited(m, c, k)| == k
  {
    if k > 0 {
      VisitedCount(m, c, k - 1, end);
      if Up(m, c, k).None? { UpStops(m, c, k, end); }
      var x := Up(m, c, k).value;
      if x in Visited(m, c, k - 1) {
        VisitedIs(m, c, k - 1, x);
        var j: nat :| 1 <= j <= k - 1 && Up(m, c, j) == Some(x);
        RestsVisitsOnce(m, c, end, j, k);
      }
    }
  }

  /** A chain that comes to rest at all does so within as many bases as the module has classes. */
  lemma RestsWithinBound(m: ModuleIr, c: ClassIr, k: nat)
    requires Rests(m, c, k)
    ensures k <= |m.classes|
  {
    VisitedCount(m, c, k, k);
    forall x | x in Visited(m, c, k) ensures x in m.classes { VisitedIs(m, c, k, x); }
    Finite.SetOfSeq(m.classes);
    Finite.Subset(Visited(m, c, k), set x | x in m.classes);
  }

  lemma RestsOnce(m: ModuleIr, c: ClassIr, j: nat, k: nat)
    requires Rests(m, c, j) && Rests(m, c, k)
    ensures j == k
  {
    if j < k { UpStops(m, c, j + 1, k); }
    if k < j { UpStops(m, c, k + 1, j); }
  }

  // ----- the walks -----

  /** The chain stops `k` bases up without coming to rest there. */
  lemma StopsShort(m: ModuleIr, c: ClassIr, k: nat)
    requires Up(m, c, k).Some? && Up(m, c, k).value.base.Some? && Up(m, c, k + 1).None?
    requires forall j: nat :: j < k ==> !Rests(m, c, j)
    ensures forall j: nat :: !Rests(m, c, j)
  {
    forall j: nat
      ensures !Rests(m, c, j)
    {
      if j > k { UpStops(m, c, k + 1, j); }
    }
  }

  lemma NeverRests(m: ModuleIr, c: ClassIr)
    requires forall j: nat :: j <= |m.classes| ==> !Rests(m, c, j)
    ensures forall j: nat :: !Rests(m, c, j)
  {
    forall j: nat
      ensures !Rests(m, c, j)
    {
      if Rests(m, c, j) { RestsWithinBound(m, c, j); }
    }
  }

  method KeepsWeakReferences(m: ModuleIr, c: ClassIr) returns (keeps: bool)
    ensures keeps <==> Weakly(m, c)
  {
    hide Next, Unslotted;
    if !c.exported || c.environment || c.resume.Some? {
      return false;
    }
    var current, unslotted := c, false;
    for k := 0 to |m.classes| + 1
      invariant Up(m, c, k) == Some(current)
      invariant unslotted <==> UnslottedBelow(m, c, k)
      invariant forall j: nat :: j < k ==> !Rests(m, c, j)
    {
      unslotted := unslotted || Unslotted(current);
      UnslottedStep(m, c, k);
      match current.base
      case None =>
        assert Rests(m, c, k);
        forall j: nat | Rests(m, c, j) ensures j == k { RestsOnce(m, c, j, k); }
        return unslotted;
      case Some(External(_)) =>
        NextOutside(m, current);
        StopsShort(m, c, k);
        return false;
      case Some(InModule(name)) =>
        NextInside(m, current);
        match Find(m.classes, name)
        case Some(next) =>
          current := next;
        case None =>
          StopsShort(m, c, k);
          return false;
    }
    NeverRests(m, c);
    keeps := false;
  }

  method TakesLayoutFromOutside(m: ModuleIr, c: ClassIr) returns (takes: bool)
    ensures takes <==> forall k: nat :: !Rests(m, c, k)
  {
    hide Next;
    var current := c;
    for k := 0 to |m.classes| + 1
      invariant Up(m, c, k) == Some(current)
      invariant forall j: nat :: j < k ==> !Rests(m, c, j)
    {
      match current.base
      case None =>
        assert Rests(m, c, k);
        return false;
      case Some(External(_)) =>
        NextOutside(m, current);
        StopsShort(m, c, k);
        return true;
      case Some(InModule(name)) =>
        NextInside(m, current);
        match Find(m.classes, name)
        case Some(next) =>
          current := next;
        case None =>
          StopsShort(m, c, k);
          return true;
    }
    NeverRests(m, c);
    takes := true;
  }

  lemma UnslottedStep(m: ModuleIr, c: ClassIr, k: nat)
    requires Up(m, c, k).Some?
    ensures UnslottedBelow(m, c, k + 1) <==> UnslottedBelow(m, c, k) || Unslotted(Up(m, c, k).value)
  {
    hide Up;
    if Unslotted(Up(m, c, k).value) {
      assert k < k + 1 && Up(m, c, k).Some? && Unslotted(Up(m, c, k).value);
    }
  }

  lemma NextOutside(m: ModuleIr, c: ClassIr)
    requires c.base.Some? && c.base.value.External?
    ensures Next(m, c) == None
  {
  }

  lemma NextInside(m: ModuleIr, c: ClassIr)
    requires c.base.Some? && c.base.value.InModule?
    ensures Next(m, c) == Find(m.classes, c.base.value.name)
  {
  }

  /** A class that keeps a weak-reference list lays itself out. */
  lemma WeaklyIsFromInside(m: ModuleIr, c: ClassIr)
    requires Weakly(m, c)
    ensures !(forall k: nat :: !Rests(m, c, k))
  {
  }

  /** On a cycle of bases the chain never comes to rest: nothing is kept, and the layout counts as outside. */
  lemma CycleNeverRests(m: ModuleIr, c: ClassIr, i: nat, j: nat)
    requires i < j && Up(m, c, i).Some? && Up(m, c, i) == Up(m, c, j)
    ensures !Weakly(m, c) && forall k: nat :: !Rests(m, c, k)
  {
    forall k: nat
      ensures !Rests(m, c, k)
    {
      if Rests(m, c, k) {
        if j <= k {
          RestsVisitsOnce(m, c, k, i, j);
        } else {
          UpStops(m, c, k + 1, j);
        }
        assert false;
      }
    }
  }

  // ----- a step of the chain, by field -----

  lemma {:induction false} FindIsFirst(classes: seq<ClassIr>, name: string) returns (i: nat)
    requires Find(classes, name).Some?
    ensures i < |classes| && classes[i] == Find(classes, name).value && classes[i].name == name
    ensures forall j :: 0 <= j < i ==> classes[j].name != name
  {
    i := 0;
    if classes[0].name != name {
      i := FindIsFirst(classes[1..], name);
      i := i + 1;
    }
  }

  /** The chain goes on to the first class of the module with the name of a base in it, and to nothing else. */
  lemma NextMeans(m: ModuleIr, c: ClassIr, d: ClassIr)
    ensures Next(m, c) == Some(d) <==>
            exists i :: 0 <= i < |m.classes| && m.classes[i] == d && c.base == Some(InModule(d.name))
                        && forall j :: 0 <= j < i ==> m.classes[j].name != d.name
  {
    if c.base.Some? && c.base.value.InModule? {
      var name := c.base.value.name;
      if Find(m.classes, name).Some? {
        var i := FindIsFirst(m.classes, name);
      }
    }
  }

  /** No room is left for the list just where slots are declared and none of them asks for it. */
  lemma UnslottedMeans(c: ClassIr)
    ensures !Unslotted(c) <==>
            exists slots :: c.slots == Some(slots) && forall i :: 0 <= i < |slots| ==> slots[i] != "__weakref__"
  {
  }
}
