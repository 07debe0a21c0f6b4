/** Whether module init builds a class by calling its metaclass. */
module Metaclass {
  import Finite
  import opened Ir
  import opened Reachability

  /** The first exported class called `name`. */
  function FindExported(classes: seq<ClassIr>, name: string): (found: Option<ClassIr>)
    ensures found.Some? ==> exists i :: 0 <= i < |classes| && classes[i] == found.value
                                         && found.value.exported && found.value.name == name
                                         && forall j :: 0 <= j < i && classes[j].exported ==> classes[j].name != name
    ensures found.None? ==> forall c :: c in classes && c.exported ==> c.name != name
  {
    if classes == [] then None
    else if classes[0].exported && classes[0].name == name then Some(classes[0])
    else
      var rest := FindExported(classes[1..], name);
      assert rest.Some? ==> forall i :: 0 <= i < |classes| - 1 ==> classes[1..][i] == classes[i + 1];
      rest
  }

  function PlainBases(c: ClassIr): seq<string> {
    if c.base.Some? then c.base.value.PlainNames() else []
  }

  predicate Writes(m: ModuleIr, name: string) {
    var c := FindExported(m.classes, name);
    c.Some? && "metaclass" in c.value.keywords
  }

  /** From each exported class of the module to the bare names it stands on. */
  ghost function Bases(m: ModuleIr): Graph<string> {
    map c | c in m.classes && c.exported :: c.name := set b | b in PlainBases(FindExported(m.classes, c.name).value)
  }

  /** `name`, or a class of this module it stands on however far up, writes a `metaclass` keyword. */
  ghost predicate StandsOnWriter(m: ModuleIr, name: string) {
    exists r :: Reaches(Bases(m), name, r) && Writes(m, r)
  }

  /** Every name the walk from `name` could ask about. */
  ghost function Universe(m: ModuleIr, name: string): set<string> {
    {name} + set c, b | c in m.classes && b in PlainBases(c) :: b
  }

  ghost function AsSet(seen: seq<string>): set<string> {
    set n | n in seen
  }

  lemma EdgeOf(m: ModuleIr, u: string, v: string)
    ensures Edge(Bases(m), u, v) <==>
            var c := FindExported(m.classes, u); c.Some? && v in PlainBases(c.value)
  {
  }

  /** The names asked about since `earlier` write nothing, and what they stand on was asked about. */
  ghost predicate Explored(m: ModuleIr, earlier: seq<string>, seen: seq<string>) {
    forall n :: n in seen && n !in earlier ==>
      !Writes(m, n) && forall b :: Edge(Bases(m), n, b) ==> b in seen
  }

  /** The same, for all but `top`, whose first bases have been asked about. */
  ghost predicate ExploredBut(m: ModuleIr, earlier: seq<string>, seen: seq<string>, top: string) {
    forall n :: n in seen && n !in earlier && n != top ==>
      !Writes(m, n) && forall b :: Edge(Bases(m), n, b) ==> b in seen
  }

  /** Ask about `name` and, sharing one list of the names asked so far, about what it stands on. */
  method WritesAMetaclass(m: ModuleIr, name: string, seen: seq<string>, ghost universe: set<string>)
    returns (found: bool, asked: seq<string>)
    requires name in universe && (forall c, b :: c in m.classes && b in PlainBases(c) ==> b in universe)
    ensures seen <= asked
    ensures found ==> StandsOnWriter(m, name)
    ensures !found ==> name in asked && Explored(m, seen, asked)
    decreases |universe - AsSet(seen)|
  {
    hide Bases, StandsOnWriter;
    if name in seen {
      return false, seen;
    }
    asked := seen + [name];
    var declared := FindExported(m.classes, name);
    if declared.None? {
      NoEdges(m, name);
      return false, asked;
    }
    if "metaclass" in declared.value.keywords {
      WriterItself(m, name);
      return true, asked;
    }
    var bases := PlainBases(declared.value);
    assert universe - AsSet(asked) < universe - AsSet(seen) by {
      assert name in asked[|seen|..] && name in AsSet(asked) && name in universe - AsSet(seen);
      assert AsSet(seen) <= AsSet(asked);
    }
    for i := 0 to |bases|
      invariant seen + [name] <= asked
      invariant forall j :: 0 <= j < i ==> bases[j] in asked
      invariant ExploredBut(m, seen, asked, name)
    {
      assert universe - AsSet(asked) <= universe - AsSet(seen + [name]) by {
        assert forall n :: n in seen + [name] ==> n in asked;
      }
      Finite.ProperSubset(universe - AsSet(asked), universe - AsSet(seen));
      var before := asked;
      found, asked := WritesAMetaclass(m, bases[i], asked, universe);
      if found {
        EdgeOf(m, name, bases[i]);
        WriterAbove(m, name, bases[i]);
        return;
      }
      ExploredMore(m, seen, before, asked, name);
    }
    found := false;
    forall b | Edge(Bases(m), name, b)
      ensures b in asked
    {
      EdgeOf(m, name, b);
    }
  }

  lemma ExploredMore(m: ModuleIr, seen: seq<string>, before: seq<string>, asked: seq<string>, name: string)
    requires ExploredBut(m, seen, before, name) && Explored(m, before, asked) && before <= asked
    ensures ExploredBut(m, seen, asked, name)
  {
    hide Bases, Writes;
    assert forall n :: n in before ==> n in asked;
  }

  lemma NoEdges(m: ModuleIr, name: string)
    requires FindExported(m.classes, name).None?
    ensures !Writes(m, name) && forall b :: !Edge(Bases(m), name, b)
  {
    forall b ensures !Edge(Bases(m), name, b) { EdgeOf(m, name, b); }
  }

  lemma WriterItself(m: ModuleIr, name: string)
    requires Writes(m, name)
    ensures StandsOnWriter(m, name)
  {
    ReachesSelf(Bases(m), name);
  }

  lemma WriterAbove(m: ModuleIr, name: string, base: string)
    requires Edge(Bases(m), name, base) && StandsOnWriter(m, base)
    ensures StandsOnWriter(m, name)
  {
    var r :| Reaches(Bases(m), base, r) && Writes(m, r);
    ReachesStep(Bases(m), name, base);
    ReachesTrans(Bases(m), name, base, r);
  }

  /** A walk from nothing that finds no writer has asked about everything there was to reach. */
  lemma ExploredIsAll(m: ModuleIr, name: string, asked: seq<string>)
    requires Explored(m, [], asked) && name in asked
    ensures !StandsOnWriter(m, name)
  {
    forall r | Reaches(Bases(m), name, r)
      ensures !Writes(m, r)
    {
      ReachesStaysInside(Bases(m), AsSet(asked), name, r);
    }
  }

  /** The walk as it is started: with nothing asked about yet. */
  method StartsAWalk(m: ModuleIr, name: string) returns (found: bool)
    ensures found <==> StandsOnWriter(m, name)
  {
    var asked;
    found, asked := WritesAMetaclass(m, name, [], Universe(m, name));
    if !found {
      ExploredIsAll(m, name, asked);
    }
  }

  predicate Emits(m: ModuleIr, name: string) {
    exists c :: c in m.classes && c.exported && c.name == name
  }

  /** The three shapes that send a class through its metaclass, whatever its bases resolve to. */
  ghost predicate ThroughItsMetaclass(m: ModuleIr, c: ClassIr) {
    && c.base.Some?
    && (|| c.keywords != []
        || (c.base.value.External? && exists b :: b in PlainBases(c) && Emits(m, b))
        || exists b :: b in PlainBases(c) && StandsOnWriter(m, b))
  }

  method BuiltThroughItsMetaclass(m: ModuleIr, c: ClassIr) returns (through: bool)
    ensures through <==> ThroughItsMetaclass(m, c)
  {
    hide StandsOnWriter;
    if c.base.None? {
      return false;
    }
    if c.keywords != [] {
      return true;
    }
    var bases := PlainBases(c);
    if c.base.value.External? && exists b :: b in bases && Emits(m, b) {
      return true;
    }
    for i := 0 to |bases|
      invariant forall j :: 0 <= j < i ==> !StandsOnWriter(m, bases[j])
    {
      through := StartsAWalk(m, bases[i]);
      if through {
        return;
      }
    }
    through := false;
  }

  // ----- the three shapes, by field -----

  /** A class stands plainly on a base of the module, or on one from outside written without a dot. */
  lemma PlainBasesMean(c: ClassIr, b: string)
    ensures b in PlainBases(c) <==>
            c.base == Some(InModule(b)) || exists paths :: c.base == Some(External(paths)) && b in paths && '.' !in b
  {
    if c.base.Some? && c.base.value.External? { WithoutDotsHas(c.base.value.paths, b); }
  }

  /** A name writes a metaclass just when the first exported class of that name has the keyword. */
  lemma WritesMeans(m: ModuleIr, name: string)
    ensures Writes(m, name) <==>
            exists i :: 0 <= i < |m.classes| && m.classes[i].exported && m.classes[i].name == name
                        && "metaclass" in m.classes[i].keywords
                        && forall j :: 0 <= j < i && m.classes[j].exported ==> m.classes[j].name != name
  {
  }

  lemma ThroughItsMetaclassMeans(m: ModuleIr, c: ClassIr)
    ensures ThroughItsMetaclass(m, c) <==>
            || (c.base.Some? && c.keywords != [])
            || (exists b, d :: c.base.Some? && c.base.value.External? && b in PlainBases(c)
                               && d in m.classes && d.exported && d.name == b)
            || (exists b :: b in PlainBases(c) && StandsOnWriter(m, b))
  {
    hide StandsOnWriter;
  }
}
