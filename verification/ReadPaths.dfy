/**
 What reading a local before writing it comes to in the control-flow graph: a way through
 the blocks, from the entry to a read, that passes no write of the register.
 */
module ReadPaths {
  import opened Ir
  import opened Machine

  // ----- what a step does to each register -----

  /** An operation writes the register that is its destination, and `del` alone unbinds one. */
  lemma OpStepMeans(f: Function, m: Config, n: Config)
    requires Fits(f, m)
    ensures OpStep(f, m, n) <==>
            && m.at < |f.blocks[m.block].ops| && n.block == m.block && n.at == m.at + 1
            && |n.touched| == |n.bound| == |f.registers|
            && var op := f.blocks[m.block].ops[m.at];
               forall r :: 0 <= r < |f.registers| ==>
                 && n.touched[r] == (m.touched[r] || op.Dest() == Some(r))
                 && n.bound[r] == (op != DeleteLocal(r) && (m.bound[r] || op.Dest() == Some(r)))
  {
    if m.at < |f.blocks[m.block].ops| {
      var op := f.blocks[m.block].ops[m.at];
      var touched, bound := Wrote(m.touched, op), Bound(m.bound, op);
      forall r | 0 <= r < |f.registers|
        ensures touched[r] == (m.touched[r] || op.Dest() == Some(r))
        ensures bound[r] == (op != DeleteLocal(r) && (m.bound[r] || op.Dest() == Some(r)))
      {
      }
      if n.block == m.block && n.at == m.at + 1 && |n.touched| == |n.bound| == |f.registers|
         && forall r :: 0 <= r < |f.registers| ==>
              && n.touched[r] == (m.touched[r] || op.Dest() == Some(r))
              && n.bound[r] == (op != DeleteLocal(r) && (m.bound[r] || op.Dest() == Some(r))) {
        assert n.touched == touched && n.bound == bound;
      }
    }
  }

  /** Edge `k` of `t` writes `r`: it is the first, or counts as one with it. */
  predicate Writes(t: Terminator, k: nat, merged: bool, r: nat)
    requires k < |t.Successors()|
  {
    && (t.NarrowShort? || t.MachineStep?) && t.dest == r
    && (k == 0 || (merged && t.Successors()[k] == t.Successors()[0]))
  }

  /** A jump writes what its edge writes and nothing else. */
  lemma JumpStepMeans(f: Function, merged: bool, m: Config, n: Config, k: nat)
    requires Fits(f, m)
    ensures JumpStep(f, merged, m, n, k) <==>
            var t := f.blocks[m.block].terminator;
            && m.at == |f.blocks[m.block].ops| && k < |t.Successors()| && n.block == t.Successors()[k] < |f.blocks| && n.at == 0
            && |n.touched| == |n.bound| == |f.registers|
            && forall r :: 0 <= r < |f.registers| ==>
                 && n.touched[r] == (m.touched[r] || Writes(t, k, merged, r))
                 && n.bound[r] == (m.bound[r] || Writes(t, k, merged, r))
  {
    hide OnEdge, Writes;
    var t := f.blocks[m.block].terminator;
    if k < |t.Successors()| {
      OnEdgeMeans(m.touched, t, k, merged);
      OnEdgeMeans(m.bound, t, k, merged);
      if |n.touched| == |n.bound| == |f.registers|
         && forall r :: 0 <= r < |f.registers| ==>
              && n.touched[r] == (m.touched[r] || Writes(t, k, merged, r))
              && n.bound[r] == (m.bound[r] || Writes(t, k, merged, r)) {
        assert n.touched == OnEdge(m.touched, t, k, merged) && n.bound == OnEdge(m.bound, t, k, merged);
      }
    }
  }

  lemma OnEdgeMeans(bits: Bits, t: Terminator, k: nat, merged: bool)
    requires k < |t.Successors()|
    ensures forall r :: 0 <= r < |bits| ==> OnEdge(bits, t, k, merged)[r] == (bits[r] || Writes(t, k, merged, r))
  {
  }

  // ----- ways through the blocks -----

  /** A block left by edge `exit` of its terminator, or by its error edge where there is none. */
  datatype Hop = Hop(block: nat, exit: Option<nat>)

  /** The hop is one `f` has, and leads to block `b`. */
  predicate LeadsTo(f: Function, hop: Hop, b: nat) {
    && hop.block < |f.blocks| && b < |f.blocks|
    && match hop.exit
       case Some(k) => k < |f.blocks[hop.block].terminator.Successors()| && f.blocks[hop.block].terminator.Successors()[k] == b
       case None => f.blocks[hop.block].errorTarget == Some(b)
  }

  /** Nothing on the hop writes `r`; the error edge may be taken before anything is written. */
  ghost predicate Spares(f: Function, merged: bool, hop: Hop, r: nat)
    requires hop.block < |f.blocks|
  {
    match hop.exit
    case Some(k) =>
      && Unwritten(f, hop.block, |f.blocks[hop.block].ops|, r)
      && (k < |f.blocks[hop.block].terminator.Successors()| ==> !Writes(f.blocks[hop.block].terminator, k, merged, r))
    case None => true
  }

  /** A way from the entry to the top of block `b` on which nothing writes `r`. */
  ghost predicate IsWay(f: Function, merged: bool, way: seq<Hop>, b: nat, r: nat) {
    if way == [] then b == 0 < |f.blocks|
    else
      var last := way[|way| - 1];
      && IsWay(f, merged, way[..|way| - 1], last.block, r)
      && LeadsTo(f, last, b) && Spares(f, merged, last, r)
  }

  /** None of the first `end` operations of block `b` writes `r`. */
  ghost predicate Unwritten(f: Function, b: nat, end: nat, r: nat) {
    b < |f.blocks| && end <= |f.blocks[b].ops| && forall i :: 0 <= i < end ==> f.blocks[b].ops[i].Dest() != Some(r)
  }

  /** Operation `at` of block `b`, or its terminator where there is none, reads `r`, and no operation before it writes `r`. */
  ghost predicate ReadsFirst(f: Function, b: nat, at: nat, r: nat) {
    && Unwritten(f, b, at, r)
    && Register(r) in (if at < |f.blocks[b].ops| then f.blocks[b].ops[at].Operands() else f.blocks[b].terminator.Operands())
  }

  /** Some way through the blocks reads the local `r` before any write, and `r` is no parameter. */
  ghost predicate ReadBeforeWrite(f: Function, merged: bool, r: nat) {
    && f.paramCount <= r < |f.registers| && f.registers[r].name.Some?
    && exists way, b, at :: IsWay(f, merged, way, b, r) && ReadsFirst(f, b, at, r)
  }

  // ----- a run takes a way -----

  /** From the top of a block a run gets to any of its operations without failing. */
  lemma {:induction false} RunsThrough(f: Function, merged: bool, m: Config, at: nat) returns (n: Config)
    requires Reached(f, merged, m) && Fits(f, m) && m.at == 0 && at <= |f.blocks[m.block].ops|
    ensures Reached(f, merged, n) && n.block == m.block && n.at == at && Fits(f, n)
    ensures n.touched == WroteAll(m.touched, f.blocks[m.block].ops[..at])
  {
    var ops := f.blocks[m.block].ops;
    if at == 0 {
      n := m;
    } else {
      var before := RunsThrough(f, merged, m, at - 1);
      n := Config(m.block, at, Wrote(before.touched, ops[at - 1]), Bound(before.bound, ops[at - 1]));
      assert OpStep(f, before, n);
      ReachedNext(f, merged, before, n);
      assert ops[..at][..at - 1] == ops[..at - 1];
    }
  }

  lemma {:induction false} WroteAllMeans(bits: Bits, ops: seq<Op>, r: nat)
    requires r < |bits|
    ensures WroteAll(bits, ops)[r] <==> bits[r] || exists i :: 0 <= i < |ops| && ops[i].Dest() == Some(r)
  {
    if ops != [] {
      WroteAllMeans(bits, ops[..|ops| - 1], r);
    }
  }

  lemma {:induction false} RunTakesWay(f: Function, merged: bool, t: seq<Config>, r: nat) returns (way: seq<Hop>)
    requires IsRun(f, merged, t) && r < |f.registers| && Fits(f, t[|t| - 1]) && !t[|t| - 1].touched[r]
    ensures IsWay(f, merged, way, t[|t| - 1].block, r) && r >= f.paramCount
    ensures Unwritten(f, t[|t| - 1].block, t[|t| - 1].at, r)
  {
    hide Wrote, Bound, OnEdge;
    if |t| == 1 {
      way := [];
    } else {
      var m, n := t[|t| - 2], t[|t| - 1];
      RunFits(f, merged, t[..|t| - 1]);
      if OpStep(f, m, n) {
        OpStepMeans(f, m, n);
        way := RunTakesWay(f, merged, t[..|t| - 1], r);
      } else if FailStep(f, m, n) {
        way := RunTakesWay(f, merged, t[..|t| - 1], r);
        way := Longer(f, merged, way, Hop(m.block, None), n.block, r);
      } else {
        var k: nat :| JumpStep(f, merged, m, n, k);
        JumpStepMeans(f, merged, m, n, k);
        way := RunTakesWay(f, merged, t[..|t| - 1], r);
        way := Longer(f, merged, way, Hop(m.block, Some(k)), n.block, r);
      }
    }
  }

  lemma Longer(f: Function, merged: bool, way: seq<Hop>, hop: Hop, b: nat, r: nat) returns (longer: seq<Hop>)
    requires IsWay(f, merged, way, hop.block, r) && LeadsTo(f, hop, b) && Spares(f, merged, hop, r)
    ensures IsWay(f, merged, longer, b, r)
  {
    longer := way + [hop];
    assert longer[..|way|] == way;
  }

  /** And a way is taken by some run. */
  lemma {:induction false} WayIsRun(f: Function, merged: bool, way: seq<Hop>, b: nat, r: nat) returns (m: Config)
    requires IsWay(f, merged, way, b, r) && f.paramCount <= r < |f.registers|
    ensures Reached(f, merged, m) && Fits(f, m) && m.block == b && m.at == 0 && !m.touched[r]
    decreases |way|
  {
    hide Wrote, Bound, Reached;
    if way == [] {
      m := Config(0, 0, EntryBits(f), EntryBits(f));
      ReachedStart(f, merged, m);
    } else {
      var hop := way[|way| - 1];
      var top := WayIsRun(f, merged, way[..|way| - 1], hop.block, r);
      match hop.exit {
        case None =>
          m := Config(b, 0, top.touched, top.bound);
          assert FailStep(f, top, m);
          ReachedNext(f, merged, top, m);
        case Some(k) =>
          var block := f.blocks[hop.block];
          var end := RunsThrough(f, merged, top, |block.ops|);
          assert block.ops[..|block.ops|] == block.ops;
          WroteAllMeans(top.touched, block.ops, r);
          m := Config(b, 0, OnEdge(end.touched, block.terminator, k, merged), OnEdge(end.bound, block.terminator, k, merged));
          assert JumpStep(f, merged, end, m, k);
          JumpStepMeans(f, merged, end, m, k);
          ReachedNext(f, merged, end, m);
      }
    }
  }

  /** The machine can read a local unwritten just when some way through the blocks does. */
  lemma ReadUntouchedMeans(f: Function, merged: bool, r: nat)
    ensures ReadUntouched(f, merged, r) <==> ReadBeforeWrite(f, merged, r)
  {
    hide Step, Starts, IsWay, Unwritten, ReadsFirst;
    if ReadUntouched(f, merged, r) {
      var m :| Reached(f, merged, m) && Reads(f, m, r) && !m.touched[r];
      var t :| IsRun(f, merged, t) && t[|t| - 1] == m;
      var way := RunTakesWay(f, merged, t, r);
      assert ReadsFirst(f, m.block, m.at, r) by { ReadIsFirst(f, m, r); }
    }
    if ReadBeforeWrite(f, merged, r) {
      var way, b: nat, at: nat :| IsWay(f, merged, way, b, r) && ReadsFirst(f, b, at, r);
      WayIsRead(f, merged, way, b, at, r);
    }
  }

  lemma ReadIsFirst(f: Function, m: Config, r: nat)
    requires Reads(f, m, r) && Unwritten(f, m.block, m.at, r)
    ensures ReadsFirst(f, m.block, m.at, r)
  {
  }

  lemma WayIsRead(f: Function, merged: bool, way: seq<Hop>, b: nat, at: nat, r: nat)
    requires IsWay(f, merged, way, b, r) && ReadsFirst(f, b, at, r)
    requires f.paramCount <= r < |f.registers| && f.registers[r].name.Some?
    ensures ReadUntouched(f, merged, r)
  {
    hide Wrote, Bound, IsRun;
    var top := WayIsRun(f, merged, way, b, r);
    var m := RunsThrough(f, merged, top, at);
    WroteAllMeans(top.touched, f.blocks[b].ops[..at], r);
    assert Reads(f, m, r) && !m.touched[r];
  }

  /** A local that every block writes before reading it is not collected. */
  lemma WrittenFirstIsNotRead(f: Function, merged: bool, r: nat)
    requires forall b, at :: !ReadsFirst(f, b, at, r)
    ensures !ReadUntouched(f, merged, r)
  {
    ReadUntouchedMeans(f, merged, r);
  }
}
