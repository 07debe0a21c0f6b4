/**
 How a function of the register machine runs, as far as which registers are bound.

 An operation can fail before it writes, which takes the block's error edge; `del` leaves
 its register unbound; a narrowing terminator writes its register on one of its two edges.
 */
module Machine {
  import opened Ir

  type Bits = seq<bool>

  /**
   Control stands before operation `at` of `block`, or before its terminator. `touched`
   says which registers anything has written so far, a `del` included; `bound` says which
   hold a value.
   */
  datatype Config = Config(block: nat, at: nat, touched: Bits, bound: Bits)

  function With(bits: Bits, r: nat, b: bool): (s: Bits)
    ensures |s| == |bits|
  {
    if r < |bits| then bits[r := b] else bits
  }

  function Wrote(bits: Bits, op: Op): (s: Bits)
    ensures |s| == |bits|
  {
    if op.Dest().Some? then With(bits, op.Dest().value, true) else bits
  }

  /** What a run of operations leaves written. */
  function WroteAll(bits: Bits, ops: seq<Op>): (s: Bits)
    ensures |s| == |bits|
  {
    if ops == [] then bits else Wrote(WroteAll(bits, ops[..|ops| - 1]), ops[|ops| - 1])
  }

  function Bound(bits: Bits, op: Op): (s: Bits)
    ensures |s| == |bits|
  {
    if op.DeleteLocal? then With(bits, op.target, false) else Wrote(bits, op)
  }

  /** A parameter arrives written; everything else starts absent. */
  function EntryBits(f: Function): (bits: Bits)
    ensures |bits| == |f.registers|
    ensures forall r :: 0 <= r < |bits| ==> bits[r] == (r < f.paramCount)
  {
    seq(|f.registers|, r => r < f.paramCount)
  }

  /**
   Whether taking edge `k` of a terminator writes its register. The machine writes on the
   first edge alone. With `merged` the two edges of a terminator whose targets are one block
   count as one edge, and both write.
   */
  predicate EdgeWrites(t: Terminator, k: nat, merged: bool)
    requires k < |t.Successors()|
  {
    t.WrittenOnEdge().Some? && (k == 0 || (merged && t.Successors()[k] == t.fits))
  }

  function OnEdge(bits: Bits, t: Terminator, k: nat, merged: bool): (s: Bits)
    requires k < |t.Successors()|
    ensures |s| == |bits|
  {
    if EdgeWrites(t, k, merged) then With(bits, t.dest, true) else bits
  }

  // ----- steps -----

  ghost predicate Fits(f: Function, m: Config) {
    && m.block < |f.blocks| && m.at <= |f.blocks[m.block].ops|
    && |m.touched| == |m.bound| == |f.registers|
  }

  ghost predicate OpStep(f: Function, m: Config, n: Config)
    requires Fits(f, m)
  {
    var ops := f.blocks[m.block].ops;
    m.at < |ops| && n == Config(m.block, m.at + 1, Wrote(m.touched, ops[m.at]), Bound(m.bound, ops[m.at]))
  }

  /** The operation, or a read the terminator makes, raises. */
  ghost predicate FailStep(f: Function, m: Config, n: Config)
    requires Fits(f, m)
  {
    var handler := f.blocks[m.block].errorTarget;
    handler.Some? && handler.value < |f.blocks| && n == Config(handler.value, 0, m.touched, m.bound)
  }

  ghost predicate JumpStep(f: Function, merged: bool, m: Config, n: Config, k: nat)
    requires Fits(f, m)
  {
    var block := f.blocks[m.block];
    && m.at == |block.ops| && k < |block.terminator.Successors()|
    && block.terminator.Successors()[k] < |f.blocks|
    && n == Config(block.terminator.Successors()[k], 0,
                   OnEdge(m.touched, block.terminator, k, merged), OnEdge(m.bound, block.terminator, k, merged))
  }

  ghost predicate Step(f: Function, merged: bool, m: Config, n: Config) {
    Fits(f, m) && (OpStep(f, m, n) || FailStep(f, m, n) || exists k :: JumpStep(f, merged, m, n, k))
  }

  ghost predicate Starts(f: Function, m: Config) {
    |f.blocks| > 0 && m == Config(0, 0, EntryBits(f), EntryBits(f))
  }

  /** A run from the entry of `f`, however far it has come. */
  ghost predicate IsRun(f: Function, merged: bool, t: seq<Config>) {
    && |t| > 0
    && if |t| == 1 then Starts(f, t[0])
       else IsRun(f, merged, t[..|t| - 1]) && Step(f, merged, t[|t| - 2], t[|t| - 1])
  }

  ghost predicate Reached(f: Function, merged: bool, m: Config) {
    exists t :: IsRun(f, merged, t) && t[|t| - 1] == m
  }

  lemma ReachedStart(f: Function, merged: bool, m: Config)
    requires Starts(f, m)
    ensures Reached(f, merged, m)
  {
    assert IsRun(f, merged, [m]);
  }

  lemma ReachedNext(f: Function, merged: bool, m: Config, n: Config)
    requires Reached(f, merged, m) && Step(f, merged, m, n)
    ensures Reached(f, merged, n)
  {
    var t :| IsRun(f, merged, t) && t[|t| - 1] == m;
    assert (t + [n])[..|t|] == t;
    assert IsRun(f, merged, t + [n]);
  }

  // ----- reads -----

  predicate Named(f: Function, r: nat) {
    r < |f.registers| && f.registers[r].name.Some?
  }

  /** What control reads where it stands. */
  function ReadsAt(f: Function, b: nat, at: nat): seq<Value>
    requires b < |f.blocks| && at <= |f.blocks[b].ops|
  {
    var block := f.blocks[b];
    if at < |block.ops| then block.ops[at].Operands() else block.terminator.Operands()
  }

  ghost predicate Reads(f: Function, m: Config, r: nat) {
    Fits(f, m) && Register(r) in ReadsAt(f, m.block, m.at)
  }

  /** `del` reads the register too: it has to answer whether the name was bound. */
  ghost predicate Deletes(f: Function, m: Config, r: nat) {
    Fits(f, m) && m.at < |f.blocks[m.block].ops| && f.blocks[m.block].ops[m.at].Unbinds() == Some(r)
  }

  /** Some run reads the named register `r` before anything has written it. */
  ghost predicate ReadUntouched(f: Function, merged: bool, r: nat) {
    Named(f, r) && exists m :: Reached(f, merged, m) && Reads(f, m, r) && !m.touched[r]
  }

  /** Some operation of `f` unbinds `r`. */
  ghost predicate Deleted(f: Function, r: nat) {
    exists b, i :: 0 <= b < |f.blocks| && 0 <= i < |f.blocks[b].ops| && f.blocks[b].ops[i].Unbinds() == Some(r)
  }

  // ----- what every run keeps -----

  lemma StepFits(f: Function, merged: bool, m: Config, n: Config)
    requires Step(f, merged, m, n)
    ensures Fits(f, n)
  {
  }

  lemma {:induction false} RunFits(f: Function, merged: bool, t: seq<Config>)
    requires IsRun(f, merged, t)
    ensures Fits(f, t[|t| - 1])
  {
    if |t| > 1 {
      StepFits(f, merged, t[|t| - 2], t[|t| - 1]);
    }
  }

  lemma ReachedFits(f: Function, merged: bool, m: Config)
    requires Reached(f, merged, m)
    ensures Fits(f, m)
  {
    var t :| IsRun(f, merged, t) && t[|t| - 1] == m;
    RunFits(f, merged, t);
  }

  /** A bound register was written, and one written is bound unless some `del` may have unbound it. */
  ghost predicate BoundAsWritten(f: Function, m: Config)
    requires Fits(f, m)
  {
    forall r :: 0 <= r < |f.registers| ==>
      (m.bound[r] ==> m.touched[r]) && (m.touched[r] && !m.bound[r] ==> Deleted(f, r))
  }

  lemma StepBinds(f: Function, merged: bool, m: Config, n: Config)
    requires Step(f, merged, m, n) && BoundAsWritten(f, m)
    ensures Fits(f, n) && BoundAsWritten(f, n)
  {
    StepFits(f, merged, m, n);
    if OpStep(f, m, n) {
      var op := f.blocks[m.block].ops[m.at];
      if op.DeleteLocal? {
        assert op.Unbinds() == Some(op.target);
        assert Deleted(f, op.target);
      }
    }
  }

  lemma {:induction false} RunBinds(f: Function, merged: bool, t: seq<Config>)
    requires IsRun(f, merged, t)
    ensures Fits(f, t[|t| - 1]) && BoundAsWritten(f, t[|t| - 1])
  {
    if |t| > 1 {
      RunBinds(f, merged, t[..|t| - 1]);
      StepBinds(f, merged, t[|t| - 2], t[|t| - 1]);
    }
  }

  /** A parameter is written in every configuration a run reaches. */
  lemma {:induction false} ParametersWritten(f: Function, merged: bool, t: seq<Config>, r: nat)
    requires IsRun(f, merged, t) && r < f.paramCount && r < |f.registers|
    ensures Fits(f, t[|t| - 1]) && t[|t| - 1].touched[r]
  {
    RunFits(f, merged, t);
    if |t| > 1 {
      ParametersWritten(f, merged, t[..|t| - 1], r);
    }
  }
}
