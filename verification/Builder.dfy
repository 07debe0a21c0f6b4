/**
 The function builder: blocks filled in any order and sealed once, with the line an
 operation was written on recorded only where it changes.
 */
module Builder {
  import opened Ir

  /** A line, and whether it runs as a generator expression's body. */
  type Spot = (nat, bool)

  /** The builder's fields, the parallel per-block vectors among them. */
  datatype State = State(
    registers: seq<RegisterDecl>,
    blocks: seq<Option<Block>>,
    pending: seq<seq<Op>>,
    current: nat,
    errorTarget: Option<nat>,
    location: Option<(nat, nat)>,
    generator: bool,
    ranges: seq<Option<(nat, nat)>>,
    positions: seq<Option<Position>>,
    lines: seq<Option<Spot>>)

  const START := State([], [None], [[]], 0, None, None, false, [None], [None], [None])

  predicate Parallel(s: State) {
    |s.blocks| == |s.pending| == |s.ranges| == |s.positions| == |s.lines|
  }

  predicate IsSealed(s: State, b: nat) {
    b < |s.blocks| && s.blocks[b].Some?
  }

  /** `op` copies a value that is there for certain: an immediate, or a register without a name. */
  predicate CannotFail(registers: seq<RegisterDecl>, op: Op) {
    op.Assign? && !(op.src.Register? && (op.src.id < |registers| ==> registers[op.src.id].name.Some?))
  }

  /** Where `op` is to be found, if it is an operation that has a place of its own. */
  function SpotOf(registers: seq<RegisterDecl>, location: Option<(nat, nat)>, generator: bool, op: Op): Option<Spot> {
    if CannotFail(registers, op) || location.None? then None else Some((location.value.1, generator))
  }

  // ----- the calls, as functions of the fields -----

  /** Record that the current block moves to `spot`: as its position, or as a line of its own. */
  function Marked(s: State, spot: Spot): State
    requires Parallel(s) && s.current < |s.blocks| && s.location.Some?
  {
    var b, position := s.current, Position(s.location.value.0, spot.1);
    if s.lines[b].None?
    then s.(positions := s.positions[b := Some(position)], lines := s.lines[b := Some(spot)])
    else s.(pending := s.pending[b := s.pending[b] + [Line(position)]], lines := s.lines[b := Some(spot)])
  }

  function DoPush(s: State, op: Op): (r: State)
    requires Parallel(s)
    ensures Parallel(r)
  {
    if IsSealed(s, s.current) || s.current >= |s.blocks| then s
    else
      var spot := SpotOf(s.registers, s.location, s.generator, op);
      var m := if spot.Some? && s.lines[s.current] != spot then Marked(s, spot.value) else s;
      m.(pending := m.pending[s.current := m.pending[s.current] + [op]])
  }

  predicate TakesNarrowing(s: State, dest: nat)
    requires Parallel(s)
  {
    && !IsSealed(s, s.current) && s.current < |s.blocks|
    && dest < |s.registers| && s.registers[dest].name.None?
    && var ops := s.pending[s.current];
       ops != [] && ops[|ops| - 1].Unbox? && ops[|ops| - 1].toInstance && ops[|ops| - 1].target == dest
  }

  function DoTake(s: State, dest: nat): (r: State)
    requires Parallel(s)
    ensures Parallel(r)
  {
    if TakesNarrowing(s, dest)
    then s.(pending := s.pending[s.current := s.pending[s.current][..|s.pending[s.current]| - 1]])
    else s
  }

  function DoTerminate(s: State, t: Terminator): (r: State)
    requires Parallel(s)
    ensures Parallel(r)
  {
    if IsSealed(s, s.current) || s.current >= |s.blocks| then s
    else s.(blocks := s.blocks[s.current := Some(Block(s.pending[s.current], t, s.errorTarget, None, None))],
            pending := s.pending[s.current := []])
  }

  function DoNewBlock(s: State): (r: State) {
    s.(blocks := s.blocks + [None], pending := s.pending + [[]], ranges := s.ranges + [None],
       positions := s.positions + [None], lines := s.lines + [None])
  }

  /** A block keeps the range it was given first. */
  function DoBlockAt(s: State, range: (nat, nat)): (r: State) {
    if s.current < |s.ranges| && s.ranges[s.current].None? then s.(ranges := s.ranges[s.current := Some(range)]) else s
  }

  /** The blocks by index, an open one sealed with what it has. */
  function Finished(s: State): (blocks: seq<Block>)
    requires Parallel(s)
    ensures |blocks| == |s.blocks|
  {
    seq(|s.blocks|, b requires 0 <= b < |s.blocks| =>
      (if s.blocks[b].Some? then s.blocks[b].value else Block(s.pending[b], Unreachable, None, None, None))
        .(range := s.ranges[b], position := s.positions[b]))
  }

  /** The builder itself. */
  class FunctionBuilder {
    var registers: seq<RegisterDecl>
    var blocks: seq<Option<Block>>
    var pending: seq<seq<Op>>
    var current: nat
    var errorTarget: Option<nat>
    var location: Option<(nat, nat)>
    var generator: bool
    var ranges: seq<Option<(nat, nat)>>
    var positions: seq<Option<Position>>
    var lines: seq<Option<Spot>>

    function Fields(): State
      reads this
    {
      State(registers, blocks, pending, current, errorTarget, location, generator, ranges, positions, lines)
    }

    constructor ()
      ensures Fields() == START
    {
      registers, blocks, pending := [], [None], [[]];
      current, errorTarget, location, generator := 0, None, None, false;
      ranges, positions, lines := [None], [None], [None];
    }

    method Declare(name: Option<string>) returns (id: nat)
      modifies this`registers
      ensures id == |old(registers)|
      ensures Fields() == old(Fields()).(registers := old(registers) + [RegisterDecl(name, false)])
    {
      id := |registers|;
      registers := registers + [RegisterDecl(name, false)];
    }

    method NewBlock() returns (id: nat)
      modifies this`blocks, this`pending, this`ranges, this`positions, this`lines
      ensures id == |old(blocks)| && Fields() == DoNewBlock(old(Fields()))
    {
      id := |blocks|;
      blocks := blocks + [None];
      pending := pending + [[]];
      ranges := ranges + [None];
      positions := positions + [None];
      lines := lines + [None];
    }

    method SwitchTo(block: nat)
      modifies this`current
      ensures Fields() == old(Fields()).(current := block)
    {
      current := block;
    }

    method BlockAt(range: (nat, nat))
      modifies this`ranges
      ensures Fields() == DoBlockAt(old(Fields()), range)
    {
      if current < |ranges| && ranges[current].None? {
        ranges := ranges[current := Some(range)];
      }
    }

    method Locate(offset: nat, line: nat) returns (was: Option<(nat, nat)>)
      modifies this`location
      ensures was == old(location) && Fields() == old(Fields()).(location := Some((offset, line)))
    {
      was := location;
      location := Some((offset, line));
    }

    method Relocate(place: Option<(nat, nat)>)
      modifies this`location
      ensures Fields() == old(Fields()).(location := place)
    {
      location := place;
    }

    method InGeneratorExpression(inside: bool) returns (was: bool)
      modifies this`generator
      ensures was == old(generator) && Fields() == old(Fields()).(generator := inside)
    {
      was := generator;
      generator := inside;
    }

    method SetErrorTarget(target: Option<nat>) returns (was: Option<nat>)
      modifies this`errorTarget
      ensures was == old(errorTarget) && Fields() == old(Fields()).(errorTarget := target)
    {
      was := errorTarget;
      errorTarget := target;
    }

    /** Add `op` at the end of the current block, unless that is sealed. */
    method Push(op: Op)
      requires Parallel(Fields())
      modifies this`pending, this`positions, this`lines
      ensures Fields() == DoPush(old(Fields()), op)
    {
      if IsSealed(Fields(), current) {
        return;
      }
      if !CannotFail(registers, op) && location.Some? && current < |lines|
         && lines[current] != Some((location.value.1, generator)) {
        var position := Position(location.value.0, generator);
        if lines[current].None? {
          positions := positions[current := Some(position)];
        } else {
          pending := pending[current := pending[current] + [Line(position)]];
        }
        lines := lines[current := Some((location.value.1, generator))];
      }
      if current < |pending| {
        pending := pending[current := pending[current] + [op]];
      }
    }

    /** Remove the narrowing into `dest` that ends the block, if one does, and hand it back with its source. */
    method TakeLastNarrowing(dest: nat) returns (taken: Option<(Op, Value)>)
      requires Parallel(Fields())
      modifies this`pending
      ensures Fields() == DoTake(old(Fields()), dest)
      ensures taken.Some? <==> TakesNarrowing(old(Fields()), dest)
      ensures taken.Some? ==> var ops := old(pending)[old(current)]; taken.value == (ops[|ops| - 1], ops[|ops| - 1].src)
    {
      if IsSealed(Fields(), current) || dest >= |registers| || registers[dest].name.Some? || current >= |pending| {
        return None;
      }
      var ops := pending[current];
      if ops == [] {
        return None;
      }
      var last := ops[|ops| - 1];
      if !(last.Unbox? && last.toInstance && last.target == dest) {
        return None;
      }
      pending := pending[current := ops[..|ops| - 1]];
      taken := Some((last, last.src));
    }

    /** Seal the current block, unless it is sealed already. */
    method Terminate(t: Terminator)
      requires Parallel(Fields())
      modifies this`blocks, this`pending
      ensures Fields() == DoTerminate(old(Fields()), t)
    {
      if IsSealed(Fields(), current) {
        return;
      }
      var ops: seq<Op> := [];
      if current < |pending| {
        ops := pending[current];
        pending := pending[current := []];
      }
      if current < |blocks| {
        blocks := blocks[current := Some(Block(ops, t, errorTarget, None, None))];
      }
    }

    /** The function's blocks, every one of them at the index it was reserved under. */
    method Finish() returns (built: seq<Block>)
      requires Parallel(Fields())
      ensures |built| == |blocks|
      ensures forall b :: 0 <= b < |built| ==> built[b].range == ranges[b] && built[b].position == positions[b]
      ensures forall b :: 0 <= b < |built| && blocks[b].Some? ==>
                built[b].ops == blocks[b].value.ops && built[b].terminator == blocks[b].value.terminator
                && built[b].errorTarget == blocks[b].value.errorTarget
      ensures forall b :: 0 <= b < |built| && blocks[b].None? ==>
                built[b].ops == pending[b] && built[b].terminator == Unreachable && built[b].errorTarget == None
      ensures built == Finished(Fields())
    {
      built := [];
      for b := 0 to |blocks|
        invariant built == Finished(Fields())[..b]
      {
        var block;
        match blocks[b] {
          case Some(done) => block := done;
          case None => block := Block(pending[b], Unreachable, None, None, None);
        }
        built := built + [block.(range := ranges[b], position := positions[b])];
      }
    }
  }

  /** What takes no place of its own: a copy of anything but a local, which alone can be read unbound. */
  lemma CannotFailMeans(registers: seq<RegisterDecl>, op: Op)
    ensures CannotFail(registers, op) <==>
            op.Assign? && forall id: nat :: op.src == Register(id) ==> id < |registers| && registers[id].name.None?
  {
  }
}
