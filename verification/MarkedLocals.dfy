/**
 What flagging the maybe-unassigned locals is worth to a run of the machine: which unbound
 reads it covers, and when it covers them all.
 */
module MarkedLocals {
  import opened Ir
  import opened Machine
  import opened UnboundLocals
  import ReadPaths

  /** The flag `Mark` leaves on register `r`. */
  ghost predicate Flagged(f: Function, r: nat)
    requires r < |f.registers|
  {
    f.registers[r].mayBeUnassigned || ReadUntouched(f, true, r) || Deleted(f, r)
  }

  /** Flag, in place, every local `f` may read before writing and every one it deletes. */
  method Mark(f: Function, registers: array<RegisterDecl>)
    requires registers[..] == f.registers
    modifies registers
    ensures forall r: nat :: r < registers.Length ==>
              && registers[r].name == f.registers[r].name
              && (registers[r].mayBeUnassigned <==> Flagged(f, r))
  {
    hide ReadUntouched, Deleted;
    var flagged: seq<nat> := UnassignedReads(f);
    for b := 0 to |f.blocks|
      invariant forall r: nat :: r in flagged <==> ReadUntouched(f, true, r) || DeletedBefore(f, b, 0, r)
    {
      var ops := f.blocks[b].ops;
      for i := 0 to |ops|
        invariant forall r: nat :: r in flagged <==> ReadUntouched(f, true, r) || DeletedBefore(f, b, i, r)
      {
        if ops[i].Unbinds().Some? {
          flagged := flagged + [ops[i].Unbinds().value];
        }
      }
    }
    DeletedAll(f);
    for i := 0 to |flagged|
      invariant forall r: nat :: r < registers.Length ==>
                  && registers[r].name == f.registers[r].name
                  && (registers[r].mayBeUnassigned <==> f.registers[r].mayBeUnassigned || r in flagged[..i])
    {
      if flagged[i] < registers.Length {
        registers[flagged[i]] := registers[flagged[i]].(mayBeUnassigned := true);
      }
      assert flagged[..i + 1] == flagged[..i] + [flagged[i]];
    }
    assert flagged[..|flagged|] == flagged;
  }

  /** In terms of the blocks: a flag was there before, or some way reads the register first, or some operation deletes it. */
  lemma FlaggedMeans(f: Function, r: nat)
    requires r < |f.registers|
    ensures Flagged(f, r) <==>
            || f.registers[r].mayBeUnassigned || ReadPaths.ReadBeforeWrite(f, true, r)
            || exists b, i :: 0 <= b < |f.blocks| && 0 <= i < |f.blocks[b].ops| && f.blocks[b].ops[i] == DeleteLocal(r)
  {
    ReadPaths.ReadUntouchedMeans(f, true, r);
  }

  /** Some operation before operation `i` of block `b` unbinds `r`. */
  ghost predicate DeletedBefore(f: Function, b: nat, i: nat, r: nat) {
    exists c: nat, j: nat :: c < |f.blocks| && j < |f.blocks[c].ops| && (c < b || (c == b && j < i))
      && f.blocks[c].ops[j].Unbinds() == Some(r)
  }

  lemma DeletedAll(f: Function)
    ensures forall r: nat :: DeletedBefore(f, |f.blocks|, 0, r) <==> Deleted(f, r)
  {
  }

  // ----- one function simulating another -----

  /** Edge `k'` of `u` goes where edge `k` of `t` goes and writes no register the other does not. */
  ghost predicate Matches(t: Terminator, a: bool, k: nat, u: Terminator, b: bool, k': nat, registers: nat) {
    && k < |t.Successors()| && k' < |u.Successors()|
    && u.Successors()[k'] == t.Successors()[k]
    && (EdgeWrites(u, k', b) && u.dest < registers ==> EdgeWrites(t, k, a) && t.dest == u.dest)
  }

  ghost predicate Weaker(t: Terminator, a: bool, u: Terminator, b: bool, registers: nat) {
    forall k: nat :: k < |t.Successors()| ==> Matched(t, a, k, u, b, registers)
  }

  ghost predicate Matched(t: Terminator, a: bool, k: nat, u: Terminator, b: bool, registers: nat) {
    exists k': nat :: Matches(t, a, k, u, b, k', registers)
  }

  /** `g`'s blocks are `f`'s, except that a terminator may write less on the way to a target. */
  ghost predicate Simulates(f: Function, a: bool, g: Function, b: bool) {
    && g.registers == f.registers && g.paramCount == f.paramCount && |g.blocks| == |f.blocks|
    && forall i :: 0 <= i < |f.blocks| ==>
         && g.blocks[i].ops == f.blocks[i].ops && g.blocks[i].errorTarget == f.blocks[i].errorTarget
         && g.blocks[i].terminator.Operands() == f.blocks[i].terminator.Operands()
         && Weaker(f.blocks[i].terminator, a, g.blocks[i].terminator, b, |f.registers|)
  }

  ghost predicate Like(m: Config, n: Config) {
    n.block == m.block && n.at == m.at && AtMost(n.touched, m.touched)
  }

  lemma StepSimulated(f: Function, a: bool, g: Function, b: bool, m: Config, m': Config, n: Config) returns (n': Config)
    requires Simulates(f, a, g, b) && Step(f, a, m, m') && Like(m, n) && Fits(g, n)
    ensures Step(g, b, n, n') && Like(m', n')
  {
    var block := g.blocks[m.block];
    if OpStep(f, m, m') {
      n' := Config(n.block, n.at + 1, Wrote(n.touched, block.ops[n.at]), Bound(n.bound, block.ops[n.at]));
      assert OpStep(g, n, n');
    } else if FailStep(f, m, m') {
      n' := Config(m'.block, 0, n.touched, n.bound);
      assert FailStep(g, n, n');
    } else {
      var t, u := f.blocks[m.block].terminator, block.terminator;
      var k :| JumpStep(f, a, m, m', k);
      assert Weaker(t, a, u, b, |f.registers|) && Matched(t, a, k, u, b, |f.registers|);
      var k': nat :| Matches(t, a, k, u, b, k', |f.registers|);
      n' := Config(m'.block, 0, OnEdge(n.touched, u, k', b), OnEdge(n.bound, u, k', b));
      assert JumpStep(g, b, n, n', k');
    }
  }

  lemma {:induction false} RunSimulated(f: Function, a: bool, g: Function, b: bool, t: seq<Config>) returns (n: Config)
    requires Simulates(f, a, g, b) && IsRun(f, a, t)
    ensures Reached(g, b, n) && Fits(g, n) && Like(t[|t| - 1], n)
    decreases |t|
  {
    hide Simulates, Step;
    if |t| == 1 {
      SimulatesEntry(f, a, g, b);
      n := Config(0, 0, EntryBits(g), EntryBits(g));
      ReachedStart(g, b, n);
    } else {
      var before := RunSimulated(f, a, g, b, t[..|t| - 1]);
      n := StepSimulated(f, a, g, b, t[|t| - 2], t[|t| - 1], before);
      ReachedNext(g, b, before, n);
    }
    ReachedFits(g, b, n);
  }

  lemma SimulatesEntry(f: Function, a: bool, g: Function, b: bool)
    requires Simulates(f, a, g, b)
    ensures EntryBits(g) == EntryBits(f) && |g.blocks| == |f.blocks|
  {
  }

  lemma ReadsSimulated(f: Function, a: bool, g: Function, b: bool, r: nat)
    requires Simulates(f, a, g, b) && ReadUntouched(f, a, r)
    ensures ReadUntouched(g, b, r)
  {
    var m :| Reached(f, a, m) && Reads(f, m, r) && !m.touched[r];
    var t :| IsRun(f, a, t) && t[|t| - 1] == m;
    var n := RunSimulated(f, a, g, b, t);
    assert Reads(g, n, r);
  }

  // ----- the analysis against the machine -----

  /** No terminator writes a register on one of two edges to the same block. */
  ghost predicate Apart(f: Function) {
    forall b :: 0 <= b < |f.blocks| ==> EdgesApart(f, f.blocks[b].terminator)
  }

  predicate EdgesApart(f: Function, t: Terminator) {
    t.WrittenOnEdge().Some? ==> t.fits != t.otherwise || t.dest >= |f.registers|
  }

  /** Every register the analysis collects has a run of the machine that reads it unwritten. */
  lemma CollectedIsRead(f: Function, r: nat)
    requires ReadUntouched(f, true, r)
    ensures ReadUntouched(f, false, r)
  {
    forall b | 0 <= b < |f.blocks|
      ensures var t := f.blocks[b].terminator; Weaker(t, true, t, false, |f.registers|)
    {
      var t := f.blocks[b].terminator;
      forall k: nat | k < |t.Successors()|
        ensures Matched(t, true, k, t, false, |f.registers|)
      {
        assert Matches(t, true, k, t, false, k, |f.registers|);
      }
    }
    ReadsSimulated(f, true, f, false, r);
  }

  /** Where edges are apart, the analysis collects every register the machine reads unwritten. */
  lemma ReadIsCollected(f: Function, r: nat)
    requires Apart(f) && ReadUntouched(f, false, r)
    ensures ReadUntouched(f, true, r)
  {
    forall b | 0 <= b < |f.blocks|
      ensures var t := f.blocks[b].terminator; Weaker(t, false, t, true, |f.registers|)
    {
      var t := f.blocks[b].terminator;
      assert EdgesApart(f, t);
      forall k: nat | k < |t.Successors()|
        ensures Matched(t, false, k, t, true, |f.registers|)
      {
        assert Matches(t, false, k, t, true, k, |f.registers|);
      }
    }
    ReadsSimulated(f, false, f, true, r);
  }

  /** A parameter is never collected. */
  lemma ParametersNotCollected(f: Function, merged: bool, r: nat)
    requires r < f.paramCount
    ensures !ReadUntouched(f, merged, r)
  {
    if ReadUntouched(f, merged, r) {
      var m :| Reached(f, merged, m) && Reads(f, m, r) && !m.touched[r];
      var t :| IsRun(f, merged, t) && t[|t| - 1] == m;
      ParametersWritten(f, merged, t, r);
      assert false;
    }
  }

  /** A run reads or deletes the named register `r` while it is unbound. */
  ghost predicate UnboundRead(f: Function, m: Config, r: nat) {
    Reached(f, false, m) && (Reads(f, m, r) || Deletes(f, m, r)) && Named(f, r) && !m.bound[r]
  }

  lemma UnboundIsUntouchedOrDeleted(f: Function, m: Config, r: nat)
    requires UnboundRead(f, m, r)
    ensures ReadUntouched(f, false, r) || Deleted(f, r)
  {
    if Deletes(f, m, r) {
      assert f.blocks[m.block].ops[m.at].Unbinds() == Some(r);
    } else {
      var t :| IsRun(f, false, t) && t[|t| - 1] == m;
      RunBinds(f, false, t);
    }
  }

  /** In every execution, an unbound read of a local is of one flagged, where edges are apart. */
  lemma MarkIsSound(f: Function, m: Config, r: nat)
    requires Apart(f) && UnboundRead(f, m, r)
    ensures Flagged(f, r)
  {
    UnboundIsUntouchedOrDeleted(f, m, r);
    if ReadUntouched(f, false, r) {
      ReadIsCollected(f, r);
    }
  }

  // ----- and where they are not -----

  function SplitTerminator(f: Function, t: Terminator): Terminator {
    if EdgesApart(f, t) then t
    else
      match t
      case NarrowShort(_, src, fits, otherwise) => NarrowShort(|f.registers|, src, fits, otherwise)
      case MachineStep(_, lhs, rhs, fits, otherwise) => MachineStep(|f.registers|, lhs, rhs, fits, otherwise)
      case _ => t
  }

  /** `f` with a write on one of two edges to the same block left out. */
  function Split(f: Function): (g: Function)
    ensures |g.blocks| == |f.blocks|
    ensures forall b :: 0 <= b < |f.blocks| ==>
              g.blocks[b] == f.blocks[b].(terminator := SplitTerminator(f, f.blocks[b].terminator))
  {
    f.(blocks := seq(|f.blocks|, b requires 0 <= b < |f.blocks| =>
      f.blocks[b].(terminator := SplitTerminator(f, f.blocks[b].terminator))))
  }

  lemma SplitWeaker(f: Function, t: Terminator)
    ensures Weaker(t, false, SplitTerminator(f, t), true, |f.registers|)
    ensures Weaker(SplitTerminator(f, t), true, t, false, |f.registers|)
  {
    var u := SplitTerminator(f, t);
    forall k: nat | k < |t.Successors()|
      ensures Matched(t, false, k, u, true, |f.registers|)
    {
      assert Matches(t, false, k, u, true, k, |f.registers|);
    }
    if EdgesApart(f, t) {
      forall k: nat | k < |t.Successors()|
        ensures Matched(u, true, k, t, false, |f.registers|)
      {
        assert Matches(u, true, k, t, false, k, |f.registers|);
      }
    } else {
      forall k: nat | k < |t.Successors()|
        ensures Matched(u, true, k, t, false, |f.registers|)
      {
        assert Matches(u, true, k, t, false, 1, |f.registers|);
      }
    }
  }

  lemma SplitSimulates(f: Function)
    ensures Simulates(f, false, Split(f), true) && Simulates(Split(f), true, f, false)
  {
    hide Weaker;
    var g := Split(f);
    forall b | 0 <= b < |f.blocks|
      ensures Weaker(f.blocks[b].terminator, false, g.blocks[b].terminator, true, |f.registers|)
      ensures Weaker(g.blocks[b].terminator, true, f.blocks[b].terminator, false, |f.registers|)
    {
      SplitWeaker(f, f.blocks[b].terminator);
    }
  }

  /** The analysis of the split function says exactly what the machine can read unwritten. */
  lemma SplitIsExact(f: Function, r: nat)
    ensures ReadUntouched(Split(f), true, r) <==> ReadUntouched(f, false, r)
  {
    hide ReadUntouched, Split, Simulates;
    SplitSimulates(f);
    if ReadUntouched(f, false, r) { ReadsSimulated(f, false, Split(f), true, r); }
    if ReadUntouched(Split(f), true, r) { ReadsSimulated(Split(f), true, f, false, r); }
  }

  /**
   For every register, no execution gets an unbound read of it past the flags just when it is
   flagged or analysing the split function does not collect it.
   */
  lemma MarkIsSoundExactlyWhen(f: Function, r: nat)
    ensures (forall m :: UnboundRead(f, m, r) ==> Flagged(f, r)) <==>
            (ReadUntouched(Split(f), true, r) ==> Flagged(f, r))
  {
    SplitIsExact(f, r);
    forall m | UnboundRead(f, m, r)
      ensures ReadUntouched(f, false, r) || Deleted(f, r)
    {
      UnboundIsUntouchedOrDeleted(f, m, r);
    }
    if ReadUntouched(f, false, r) {
      var m :| Reached(f, false, m) && Reads(f, m, r) && !m.touched[r];
      var t :| IsRun(f, false, t) && t[|t| - 1] == m;
      RunBinds(f, false, t);
      assert UnboundRead(f, m, r);
    }
  }

  /** Narrow into the local `x` on one of two edges to a block that returns it. */
  function NarrowedTwice(x: string): Function {
    Function("f", None, 0, [RegisterDecl(Some(x), false)],
             [Block([], NarrowShort(0, Immediate, 1, 1), None, None, None), Block([], Return(Register(0)), None, None, None)],
             [], false)
  }

  /**
   Edges that are not apart do get past the flags. The compiler marks its functions before
   the pass that makes narrowing terminators, so it hands `mark` no such function.
   */
  lemma NarrowedTwiceIsMissed(x: string)
    ensures !Flagged(NarrowedTwice(x), 0)
    ensures exists m :: UnboundRead(NarrowedTwice(x), m, 0)
  {
    NarrowedTwiceIsRead(x);
    NarrowedTwiceIsNotFlagged(x);
  }

  lemma NarrowedTwiceIsRead(x: string)
    ensures UnboundRead(NarrowedTwice(x), Config(1, 0, [false], [false]), 0)
  {
    var f := NarrowedTwice(x);
    var m, n := Config(0, 0, [false], [false]), Config(1, 0, [false], [false]);
    assert EntryBits(f) == [false];
    ReachedStart(f, false, m);
    assert JumpStep(f, false, m, n, 1);
    ReachedNext(f, false, m, n);
  }

  lemma NarrowedTwiceIsNotFlagged(x: string)
    ensures !Flagged(NarrowedTwice(x), 0)
  {
    hide Reached;
    var f := NarrowedTwice(x);
    if ReadUntouched(f, true, 0) {
      var c :| Reached(f, true, c) && Reads(f, c, 0) && !c.touched[0];
      SecondBlockReached(x, c);
      assert false;
    }
  }

  lemma SecondBlockReached(x: string, c: Config)
    requires Reached(NarrowedTwice(x), true, c)
    ensures Fits(NarrowedTwice(x), c) && (c.block == 1 ==> c.touched[0])
  {
    var t :| IsRun(NarrowedTwice(x), true, t) && t[|t| - 1] == c;
    SecondBlockWritten(x, t);
  }

  lemma {:induction false} SecondBlockWritten(x: string, t: seq<Config>)
    requires IsRun(NarrowedTwice(x), true, t)
    ensures Fits(NarrowedTwice(x), t[|t| - 1])
    ensures t[|t| - 1].block == 1 ==> t[|t| - 1].touched[0]
    decreases |t|
  {
    RunFits(NarrowedTwice(x), true, t);
    if |t| > 1 {
      SecondBlockWritten(x, t[..|t| - 1]);
    }
  }
}
