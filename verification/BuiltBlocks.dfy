/**
 What a finished function holds after any sequence of calls to the builder: per block, the
 operations pushed while it was current and open, each found on the line it was pushed from.
 */
module BuiltBlocks {
  import opened Ir
  import opened Builder

  datatype Call =
    | Declare(name: Option<string>)
    | NewBlock
    | SwitchTo(block: nat)
    | BlockAt(range: (nat, nat))
    | Relocate(place: Option<(nat, nat)>)
    | InGeneratorExpression(inside: bool)
    | SetErrorTarget(target: Option<nat>)
    | Push(op: Op)
    | TakeLastNarrowing(dest: nat)
    | Terminate(terminator: Terminator)

  function Apply(s: State, call: Call): (r: State)
    requires Parallel(s)
    ensures Parallel(r)
  {
    match call
    case Declare(name) => s.(registers := s.registers + [RegisterDecl(name, false)])
    case NewBlock => DoNewBlock(s)
    case SwitchTo(block) => s.(current := block)
    case BlockAt(range) => DoBlockAt(s, range)
    case Relocate(place) => s.(location := place)
    case InGeneratorExpression(inside) => s.(generator := inside)
    case SetErrorTarget(target) => s.(errorTarget := target)
    case Push(op) => DoPush(s, op)
    case TakeLastNarrowing(dest) => DoTake(s, dest)
    case Terminate(t) => DoTerminate(s, t)
  }

  function Run(calls: seq<Call>): (s: State)
    ensures Parallel(s)
  {
    if calls == [] then START else Apply(Run(calls[..|calls| - 1]), calls[|calls| - 1])
  }

  // ----- the same calls, keeping whole what the builder elides -----

  /** An operation kept, where it was written, and whether a line mark stands right before it. */
  datatype Kept = Kept(op: Op, spot: Option<Spot>, marked: bool)

  /**
   One block: what it keeps, the last spot anything located was pushed from, whether it ends
   in a line mark whose operation was taken back, and how it was sealed.
   */
  datatype KeptBlock = KeptBlock(kept: seq<Kept>, last: Option<Spot>, dangling: bool, seal: Option<(Terminator, Option<nat>)>)

  datatype Log = Log(
    registers: seq<RegisterDecl>,
    blocks: seq<KeptBlock>,
    current: nat,
    errorTarget: Option<nat>,
    location: Option<(nat, nat)>,
    generator: bool)

  const EMPTY := KeptBlock([], None, false, None)

  predicate Open(l: Log) {
    l.current < |l.blocks| && l.blocks[l.current].seal.None?
  }

  function KeepIn(b: KeptBlock, op: Op, spot: Option<Spot>): KeptBlock {
    var moves := spot.Some? && b.last.Some? && b.last != spot;
    b.(kept := b.kept + [Kept(op, spot, moves || b.dangling)],
       last := if spot.Some? then spot else b.last,
       dangling := false)
  }

  predicate CanTakeFrom(b: KeptBlock, dest: nat) {
    b.kept != [] && !b.dangling
    && var last := b.kept[|b.kept| - 1].op; last.Unbox? && last.toInstance && last.target == dest
  }

  function TakeFrom(b: KeptBlock): KeptBlock
    requires b.kept != []
  {
    b.(kept := b.kept[..|b.kept| - 1], dangling := b.kept[|b.kept| - 1].marked)
  }

  function Note(l: Log, call: Call): Log {
    match call
    case Declare(name) => l.(registers := l.registers + [RegisterDecl(name, false)])
    case NewBlock => l.(blocks := l.blocks + [EMPTY])
    case SwitchTo(block) => l.(current := block)
    case BlockAt(_) => l
    case Relocate(place) => l.(location := place)
    case InGeneratorExpression(inside) => l.(generator := inside)
    case SetErrorTarget(target) => l.(errorTarget := target)
    case Push(op) =>
      if !Open(l) then l
      else l.(blocks := l.blocks[l.current :=
        KeepIn(l.blocks[l.current], op, SpotOf(l.registers, l.location, l.generator, op))])
    case TakeLastNarrowing(dest) =>
      if Open(l) && dest < |l.registers| && l.registers[dest].name.None? && CanTakeFrom(l.blocks[l.current], dest)
      then l.(blocks := l.blocks[l.current := TakeFrom(l.blocks[l.current])])
      else l
    case Terminate(t) =>
      if !Open(l) then l
      else l.(blocks := l.blocks[l.current := l.blocks[l.current].(seal := Some((t, l.errorTarget)))])
  }

  function LogOf(calls: seq<Call>): Log {
    if calls == [] then Log([], [EMPTY], 0, None, None, false)
    else Note(LogOf(calls[..|calls| - 1]), calls[|calls| - 1])
  }

  // ----- reading a block back -----

  /** An operation as it is found in a block: on which line, and right after a line mark or not. */
  datatype Seen = Seen(op: Op, spot: Option<Spot>, marked: bool)

  function SpotAt(position: Position, lineOf: nat -> nat): Spot {
    (lineOf(position.offset), position.generatorExpression)
  }

  /** The spot in force after `ops`. */
  function Cursor(position: Option<Position>, ops: seq<Op>, lineOf: nat -> nat): Option<Spot> {
    if ops == [] then (if position.Some? then Some(SpotAt(position.value, lineOf)) else None)
    else if ops[|ops| - 1].Line? then Some(SpotAt(ops[|ops| - 1].position, lineOf))
    else Cursor(position, ops[..|ops| - 1], lineOf)
  }

  predicate EndsInMark(ops: seq<Op>) {
    ops != [] && ops[|ops| - 1].Line?
  }

  function Read(position: Option<Position>, ops: seq<Op>, lineOf: nat -> nat): seq<Seen> {
    if ops == [] then []
    else
      var before, op := ops[..|ops| - 1], ops[|ops| - 1];
      Read(position, before, lineOf)
      + if op.Line? then [] else [Seen(op, Cursor(position, before, lineOf), EndsInMark(before))]
  }

  /** What is read is what was kept, and whatever was kept with a spot is found at it. */
  ghost predicate Shows(seen: seq<Seen>, kept: seq<Kept>) {
    && |seen| == |kept|
    && forall i :: 0 <= i < |kept| ==>
         seen[i].op == kept[i].op && seen[i].marked == kept[i].marked && (kept[i].spot.Some? ==> seen[i].spot == kept[i].spot)
  }

  // ----- the builder's fields against the log -----

  function OpsIn(s: State, b: nat): seq<Op>
    requires Parallel(s) && b < |s.blocks|
  {
    if s.blocks[b].Some? then s.blocks[b].value.ops else s.pending[b]
  }

  ghost predicate Reflects(lineOf: nat -> nat, position: Option<Position>, ops: seq<Op>, line: Option<Spot>, k: KeptBlock) {
    && line == k.last && Cursor(position, ops, lineOf) == k.last
    && (EndsInMark(ops) <==> k.dangling)
    && (k.last.None? ==> forall i :: 0 <= i < |k.kept| ==> k.kept[i].spot.None?)
    && Shows(Read(position, ops, lineOf), k.kept)
  }

  ghost predicate SealedAs(block: Option<Block>, seal: Option<(Terminator, Option<nat>)>) {
    && (block.Some? <==> seal.Some?)
    && (block.Some? ==> block.value.terminator == seal.value.0 && block.value.errorTarget == seal.value.1)
  }

  ghost predicate SameBlock(lineOf: nat -> nat, s: State, l: Log, b: nat)
    requires Parallel(s) && b < |s.blocks| == |l.blocks|
  {
    && SealedAs(s.blocks[b], l.blocks[b].seal)
    && Reflects(lineOf, s.positions[b], OpsIn(s, b), s.lines[b], l.blocks[b])
  }

  ghost predicate Agrees(lineOf: nat -> nat, s: State, l: Log) {
    && Parallel(s) && |s.blocks| == |l.blocks|
    && s.registers == l.registers && s.current == l.current && s.errorTarget == l.errorTarget
    && s.location == l.location && s.generator == l.generator
    && (s.location.Some? ==> lineOf(s.location.value.0) == s.location.value.1)
    && forall b: nat :: b < |s.blocks| ==> SameBlock(lineOf, s, l, b)
  }

  /** The caller pushes no line mark of its own, and an offset is always given with its own line. */
  predicate Fair(call: Call, lineOf: nat -> nat) {
    && (call.Push? ==> !call.op.Line?)
    && (call.Relocate? && call.place.Some? ==> lineOf(call.place.value.0) == call.place.value.1)
  }

  // ----- each call keeps them agreeing -----

  lemma ReadAppend(position: Option<Position>, ops: seq<Op>, op: Op, lineOf: nat -> nat)
    ensures Cursor(position, ops + [op], lineOf) ==
            if op.Line? then Some(SpotAt(op.position, lineOf)) else Cursor(position, ops, lineOf)
    ensures Read(position, ops + [op], lineOf) == Read(position, ops, lineOf)
            + if op.Line? then [] else [Seen(op, Cursor(position, ops, lineOf), EndsInMark(ops))]
    ensures EndsInMark(ops + [op]) <==> op.Line?
  {
    assert (ops + [op])[..|ops|] == ops;
  }

  /** Where nothing has been located yet, giving the block a position changes no more than that. */
  lemma {:induction false} PositionLate(position: Position, ops: seq<Op>, lineOf: nat -> nat, kept: seq<Kept>)
    requires Cursor(None, ops, lineOf).None? && Shows(Read(None, ops, lineOf), kept)
    requires forall i :: 0 <= i < |kept| ==> kept[i].spot.None?
    ensures Cursor(Some(position), ops, lineOf) == Some(SpotAt(position, lineOf))
    ensures Shows(Read(Some(position), ops, lineOf), kept)
    decreases |ops|
  {
    if ops != [] {
      PositionLate(position, ops[..|ops| - 1], lineOf, kept[..|kept| - 1]);
    }
  }

  lemma NothingLocated(position: Option<Position>, ops: seq<Op>, lineOf: nat -> nat)
    requires Cursor(position, ops, lineOf).None?
    ensures position == None
    decreases |ops|
  {
    if ops != [] { NothingLocated(position, ops[..|ops| - 1], lineOf); }
  }

  /** Marking a move to `spot` leaves the block standing there. */
  lemma MarkReflects(lineOf: nat -> nat, s: State, spot: Spot, k: KeptBlock)
    requires Parallel(s) && s.current < |s.blocks| && s.blocks[s.current].None? && s.location.Some?
    requires spot == (lineOf(s.location.value.0), s.generator) && s.lines[s.current] != Some(spot)
    requires Reflects(lineOf, s.positions[s.current], s.pending[s.current], s.lines[s.current], k)
    ensures var m, b := Marked(s, spot), s.current;
            Reflects(lineOf, m.positions[b], m.pending[b], m.lines[b],
                     k.(last := Some(spot), dangling := k.last.Some? || k.dangling))
  {
    hide Shows, Read, Cursor;
    var b := s.current;
    var position := Position(s.location.value.0, spot.1);
    if s.lines[b].None? {
      NothingLocated(s.positions[b], s.pending[b], lineOf);
      PositionLate(position, s.pending[b], lineOf, k.kept);
    } else {
      ReadAppend(s.positions[b], s.pending[b], Line(position), lineOf);
      assert Read(s.positions[b], s.pending[b], lineOf) + [] == Read(s.positions[b], s.pending[b], lineOf);
    }
  }

  lemma KeepReflects(lineOf: nat -> nat, position: Option<Position>, ops: seq<Op>, line: Option<Spot>, k: KeptBlock,
                     op: Op, spot: Option<Spot>)
    requires Reflects(lineOf, position, ops, line, k) && !op.Line? && (spot.Some? ==> spot == k.last)
    ensures Reflects(lineOf, position, ops + [op], line,
                     k.(kept := k.kept + [Kept(op, spot, k.dangling)], dangling := false))
  {
    hide Cursor, Read;
    ReadAppend(position, ops, op, lineOf);
  }

  lemma TakeReflects(lineOf: nat -> nat, position: Option<Position>, ops: seq<Op>, line: Option<Spot>, k: KeptBlock)
    requires Reflects(lineOf, position, ops, line, k) && ops != [] && !ops[|ops| - 1].Line?
    ensures k.kept != [] && k.kept[|k.kept| - 1].op == ops[|ops| - 1]
    ensures Reflects(lineOf, position, ops[..|ops| - 1], line, TakeFrom(k))
  {
    hide Cursor, Read;
    var before := ops[..|ops| - 1];
    ReadAppend(position, before, ops[|ops| - 1], lineOf);
    assert before + [ops[|ops| - 1]] == ops;
  }

  lemma PushAgrees(lineOf: nat -> nat, s: State, l: Log, op: Op)
    requires Agrees(lineOf, s, l) && !op.Line?
    ensures Agrees(lineOf, DoPush(s, op), Note(l, Push(op)))
  {
    hide Reflects;
    var b := s.current;
    if b < |s.blocks| {
      assert SameBlock(lineOf, s, l, b);
      if s.blocks[b].None? {
        PushReflects(lineOf, s, l, op);
        OthersSame(lineOf, s, l, DoPush(s, op), Note(l, Push(op)));
      }
    }
  }

  /** A call that touches only the current block leaves the others agreeing. */
  lemma OthersSame(lineOf: nat -> nat, s: State, l: Log, s': State, l': Log)
    requires Agrees(lineOf, s, l) && Parallel(s') && |s'.blocks| == |l'.blocks| == |s.blocks|
    requires s'.registers == s.registers && s'.current == s.current && s'.errorTarget == s.errorTarget
    requires s'.location == s.location && s'.generator == s.generator
    requires l'.registers == l.registers && l'.current == l.current && l'.errorTarget == l.errorTarget
    requires l'.location == l.location && l'.generator == l.generator
    requires forall b: nat :: b < |s.blocks| && b != s.current ==>
               && s'.blocks[b] == s.blocks[b] && s'.pending[b] == s.pending[b] && s'.positions[b] == s.positions[b]
               && s'.lines[b] == s.lines[b] && l'.blocks[b] == l.blocks[b]
    requires s.current < |s.blocks| ==> SameBlock(lineOf, s', l', s.current)
    ensures Agrees(lineOf, s', l')
  {
    hide Reflects;
    forall b: nat | b < |s.blocks|
      ensures SameBlock(lineOf, s', l', b)
    {
      assert SameBlock(lineOf, s, l, b);
    }
  }

  lemma PushReflects(lineOf: nat -> nat, s: State, l: Log, op: Op)
    requires Agrees(lineOf, s, l) && !op.Line? && s.current < |s.blocks| && s.blocks[s.current].None?
    ensures SameBlock(lineOf, DoPush(s, op), Note(l, Push(op)), s.current)
  {
    hide Reflects, CannotFail;
    var b := s.current;
    assert SameBlock(lineOf, s, l, b);
    var k, spot := l.blocks[b], SpotOf(s.registers, s.location, s.generator, op);
    assert s.lines[b] == k.last by { LineIsLast(lineOf, s.positions[b], s.pending[b], s.lines[b], k); }
    if spot.Some? && s.lines[b] != spot {
      MarkReflects(lineOf, s, spot.value, k);
      var m, k' := Marked(s, spot.value), k.(last := spot, dangling := k.last.Some? || k.dangling);
      LineIsLast(lineOf, m.positions[b], m.pending[b], m.lines[b], k');
      KeepReflects(lineOf, m.positions[b], m.pending[b], m.lines[b], k', op, spot);
    } else {
      KeepReflects(lineOf, s.positions[b], s.pending[b], s.lines[b], k, op, spot);
    }
  }

  lemma LineIsLast(lineOf: nat -> nat, position: Option<Position>, ops: seq<Op>, line: Option<Spot>, k: KeptBlock)
    requires Reflects(lineOf, position, ops, line, k)
    ensures line == k.last && (EndsInMark(ops) <==> k.dangling)
  {
  }

  lemma TakeAgrees(lineOf: nat -> nat, s: State, l: Log, dest: nat)
    requires Agrees(lineOf, s, l)
    ensures Agrees(lineOf, DoTake(s, dest), Note(l, TakeLastNarrowing(dest)))
  {
    hide Reflects;
    var b := s.current;
    if b < |s.blocks| {
      assert SameBlock(lineOf, s, l, b);
      if s.blocks[b].None? {
        var ops := s.pending[b];
        LineIsLast(lineOf, s.positions[b], ops, s.lines[b], l.blocks[b]);
        TakeTells(lineOf, s.positions[b], ops, s.lines[b], l.blocks[b]);
        if TakesNarrowing(s, dest) {
          TakeReflects(lineOf, s.positions[b], ops, s.lines[b], l.blocks[b]);
          OthersSame(lineOf, s, l, DoTake(s, dest), Note(l, TakeLastNarrowing(dest)));
        }
      }
    }
  }

  /** The last operation kept is the last of the block, unless a line mark is. */
  lemma TakeTells(lineOf: nat -> nat, position: Option<Position>, ops: seq<Op>, line: Option<Spot>, k: KeptBlock)
    requires Reflects(lineOf, position, ops, line, k)
    ensures k.kept != [] && !k.dangling ==> ops != [] && ops[|ops| - 1] == k.kept[|k.kept| - 1].op
    ensures ops != [] && !ops[|ops| - 1].Line? ==> k.kept != [] && !k.dangling && ops[|ops| - 1] == k.kept[|k.kept| - 1].op
  {
  }

  lemma TerminateAgrees(lineOf: nat -> nat, s: State, l: Log, t: Terminator)
    requires Agrees(lineOf, s, l)
    ensures Agrees(lineOf, DoTerminate(s, t), Note(l, Terminate(t)))
  {
    hide Reflects;
    var b := s.current;
    if b < |s.blocks| {
      assert SameBlock(lineOf, s, l, b);
      if s.blocks[b].None? {
        ReflectsSeal(lineOf, s.positions[b], s.pending[b], s.lines[b], l.blocks[b], Some((t, l.errorTarget)));
        OthersSame(lineOf, s, l, DoTerminate(s, t), Note(l, Terminate(t)));
      }
    }
  }

  lemma ReflectsSeal(lineOf: nat -> nat, position: Option<Position>, ops: seq<Op>, line: Option<Spot>, k: KeptBlock,
                     seal: Option<(Terminator, Option<nat>)>)
    requires Reflects(lineOf, position, ops, line, k)
    ensures Reflects(lineOf, position, ops, line, k.(seal := seal))
  {
  }

  lemma NewBlockAgrees(lineOf: nat -> nat, s: State, l: Log)
    requires Agrees(lineOf, s, l)
    ensures Agrees(lineOf, DoNewBlock(s), Note(l, NewBlock))
  {
    var s', l' := DoNewBlock(s), Note(l, NewBlock);
    forall b: nat | b < |s'.blocks|
      ensures SameBlock(lineOf, s', l', b)
    {
      if b < |s.blocks| { assert SameBlock(lineOf, s, l, b); }
    }
  }

  lemma ApplyAgrees(lineOf: nat -> nat, s: State, l: Log, call: Call)
    requires Agrees(lineOf, s, l) && Fair(call, lineOf)
    ensures Agrees(lineOf, Apply(s, call), Note(l, call))
  {
    match call
    case Push(op) => PushAgrees(lineOf, s, l, op);
    case TakeLastNarrowing(dest) => TakeAgrees(lineOf, s, l, dest);
    case Terminate(t) => TerminateAgrees(lineOf, s, l, t);
    case NewBlock => NewBlockAgrees(lineOf, s, l);
    case _ => RestAgrees(lineOf, s, l, call);
  }

  lemma RestAgrees(lineOf: nat -> nat, s: State, l: Log, call: Call)
    requires Agrees(lineOf, s, l) && Fair(call, lineOf)
    requires !call.Push? && !call.TakeLastNarrowing? && !call.Terminate? && !call.NewBlock?
    ensures Agrees(lineOf, Apply(s, call), Note(l, call))
  {
    hide Reflects;
    var s', l' := Apply(s, call), Note(l, call);
    forall b: nat | b < |s.blocks|
      ensures SameBlock(lineOf, s', l', b)
    {
      assert SameBlock(lineOf, s, l, b);
    }
  }

  lemma {:induction false} RunAgrees(lineOf: nat -> nat, calls: seq<Call>)
    requires forall i :: 0 <= i < |calls| ==> Fair(calls[i], lineOf)
    ensures Agrees(lineOf, Run(calls), LogOf(calls))
  {
    hide Agrees, Apply, Note;
    if calls == [] {
      StartAgrees(lineOf);
    } else {
      RunAgrees(lineOf, calls[..|calls| - 1]);
      ApplyAgrees(lineOf, Run(calls[..|calls| - 1]), LogOf(calls[..|calls| - 1]), calls[|calls| - 1]);
    }
  }

  lemma StartAgrees(lineOf: nat -> nat)
    ensures Agrees(lineOf, Run([]), LogOf([]))
  {
  }

  // ----- where a block came from -----

  /** Call `i` says where block `b` came from: it is a `BlockAt` made while `b` was current. */
  predicate Places(calls: seq<Call>, i: nat, b: nat)
    requires i < |calls|
  {
    calls[i].BlockAt? && Run(calls[..i]).current == b && b < |Run(calls[..i]).blocks|
  }

  /** The range of the first call that says where `b` came from, and nothing where none does. */
  ghost predicate FirstPlace(calls: seq<Call>, b: nat, range: Option<(nat, nat)>) {
    if range.Some?
    then exists i :: 0 <= i < |calls| && Places(calls, i, b) && calls[i].range == range.value
                     && forall j :: 0 <= j < i ==> !Places(calls, j, b)
    else forall i :: 0 <= i < |calls| ==> !Places(calls, i, b)
  }

  lemma PlacesBefore(calls: seq<Call>, i: nat, b: nat)
    requires i < |calls| - 1
    ensures Places(calls, i, b) == Places(calls[..|calls| - 1], i, b)
  {
    assert calls[..|calls| - 1][..i] == calls[..i];
  }

  lemma ApplyRange(s: State, call: Call, b: nat)
    requires Parallel(s) && b < |Apply(s, call).blocks|
    ensures b >= |s.blocks| ==> Apply(s, call).ranges[b] == None
    ensures b < |s.blocks| ==>
              Apply(s, call).ranges[b]
              == if s.ranges[b].None? && call.BlockAt? && s.current == b then Some(call.range) else s.ranges[b]
  {
  }

  /** One more call is the first place only where there was none. */
  lemma FirstPlaceGrows(calls: seq<Call>, b: nat, was: Option<(nat, nat)>)
    requires calls != [] && FirstPlace(calls[..|calls| - 1], b, was)
    ensures FirstPlace(calls, b, if was.None? && Places(calls, |calls| - 1, b) then Some(calls[|calls| - 1].range) else was)
  {
    hide Run, Places;
    forall i | 0 <= i < |calls| - 1
      ensures Places(calls, i, b) == Places(calls[..|calls| - 1], i, b)
    {
      PlacesBefore(calls, i, b);
    }
  }

  lemma {:induction false} RangeIsFirst(calls: seq<Call>, b: nat)
    requires b < |Run(calls).blocks|
    ensures FirstPlace(calls, b, Run(calls).ranges[b])
  {
    hide FirstPlace, Apply;
    if calls == [] {
      NoCalls(b);
    } else {
      var before := calls[..|calls| - 1];
      ApplyRange(Run(before), calls[|calls| - 1], b);
      if b < |Run(before).blocks| {
        RangeIsFirst(before, b);
      } else {
        NoPlaceYet(before, b);
        assert FirstPlace(before, b, None) by { NoPlaceIs(before, b); }
      }
      FirstPlaceGrows(calls, b, if b < |Run(before).blocks| then Run(before).ranges[b] else None);
    }
  }

  lemma NoCalls(b: nat)
    ensures FirstPlace([], b, None)
  {
  }

  lemma NoPlaceIs(calls: seq<Call>, b: nat)
    requires forall i :: 0 <= i < |calls| ==> !Places(calls, i, b)
    ensures FirstPlace(calls, b, None)
  {
  }

  /** A block that has not been reserved has not been placed. */
  lemma {:induction false} NoPlaceYet(calls: seq<Call>, b: nat)
    requires b >= |Run(calls).blocks|
    ensures forall i :: 0 <= i < |calls| ==> !Places(calls, i, b)
  {
    if calls != [] {
      NoPlaceYet(calls[..|calls| - 1], b);
      forall i | 0 <= i < |calls| - 1
        ensures !Places(calls, i, b)
      {
        PlacesBefore(calls, i, b);
      }
    }
  }

  /**
   After any fair calls, each finished block reads back as what its log kept, each located
   operation on its own line, under the first terminator the block was given, and is said to
   come from the first place it was given.
   */
  lemma BuiltAsCalled(lineOf: nat -> nat, calls: seq<Call>, b: nat)
    requires forall i :: 0 <= i < |calls| ==> Fair(calls[i], lineOf)
    requires b < |LogOf(calls).blocks|
    ensures |Finished(Run(calls))| == |LogOf(calls).blocks|
    ensures var block, log := Finished(Run(calls))[b], LogOf(calls).blocks[b];
            && Shows(Read(block.position, block.ops, lineOf), log.kept)
            && block.terminator == (if log.seal.Some? then log.seal.value.0 else Unreachable)
            && block.errorTarget == (if log.seal.Some? then log.seal.value.1 else None)
            && FirstPlace(calls, b, block.range)
  {
    hide Run, LogOf, Read, Shows, FirstPlace;
    RunAgrees(lineOf, calls);
    RangeIsFirst(calls, b);
    assert SameBlock(lineOf, Run(calls), LogOf(calls), b);
  }
}
