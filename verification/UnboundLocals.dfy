/**
 Which locals some path may read before writing: a forward must-be-written fixpoint over
 a queue of blocks, then one pass collecting the reads it cannot vouch for.
 */
module UnboundLocals {
  import opened Ir
  import opened Machine
  import opened ReadPaths

  /** What is known written on entry to each block; `None` for a block nothing reaches yet. */
  type Incoming = seq<Option<Bits>>

  datatype Edge = Edge(target: nat, state: Bits)

  /** The edges of a terminator with the state each carries, from `k` on. */
  function Jumps(t: Terminator, state: Bits, k: nat): (edges: seq<Edge>)
    requires k <= |t.Successors()|
    ensures |edges| == |t.Successors()| - k
    ensures forall j :: 0 <= j < |edges| ==>
              edges[j] == Edge(t.Successors()[k + j], OnEdge(state, t, k + j, true))
    decreases |t.Successors()| - k
  {
    if k == |t.Successors()| then []
    else [Edge(t.Successors()[k], OnEdge(state, t, k, true))] + Jumps(t, state, k + 1)
  }

  /**
   Where `block` can go next. A handler is entered from before any of the block's writes:
   the first operation can be the one that failed.
   */
  function EdgesFrom(block: Block, entry: Bits): (edges: seq<Edge>) {
    Jumps(block.terminator, WroteAll(entry, block.ops), 0)
    + if block.errorTarget.Some? then [Edge(block.errorTarget.value, entry)] else []
  }

  function Meet(a: Bits, b: Bits): (c: Bits)
    requires |a| == |b|
    ensures |c| == |a| && forall r :: 0 <= r < |a| ==> c[r] == (a[r] && b[r])
  {
    seq(|a|, r requires 0 <= r < |a| => a[r] && b[r])
  }

  // ----- what the fixpoint keeps true -----

  ghost predicate Shape(f: Function, incoming: Incoming) {
    && |incoming| == |f.blocks| > 0
    && forall b :: 0 <= b < |incoming| && incoming[b].Some? ==> |incoming[b].value| == |f.registers|
  }

  /** Some run enters `b`, and one enters it with `r` unwritten wherever `incoming` says so. */
  ghost predicate Enters(f: Function, b: nat) {
    exists m :: Reached(f, true, m) && m.block == b && m.at == 0
  }

  ghost predicate EntersWithout(f: Function, b: nat, r: nat) {
    exists m :: Reached(f, true, m) && m.block == b && m.at == 0 && r < |m.touched| && !m.touched[r]
  }

  ghost predicate Vouched(f: Function, b: nat, state: Bits) {
    Enters(f, b) && forall r :: 0 <= r < |state| && !state[r] ==> EntersWithout(f, b, r)
  }

  /** Every bit `incoming` leaves clear has a run that explains it. */
  ghost predicate Witnessed(f: Function, incoming: Incoming)
    requires Shape(f, incoming)
  {
    forall b :: 0 <= b < |incoming| && incoming[b].Some? ==> Vouched(f, b, incoming[b].value)
  }

  ghost predicate AtMost(a: Bits, b: Bits) {
    |a| == |b| && forall r :: 0 <= r < |a| && a[r] ==> b[r]
  }

  /** `incoming` accounts for an edge: it promises its target nothing the edge does not bring. */
  ghost predicate Accounts(incoming: Incoming, edge: Edge) {
    edge.target < |incoming| ==> incoming[edge.target].Some? && AtMost(incoming[edge.target].value, edge.state)
  }

  ghost predicate Settled(f: Function, incoming: Incoming, b: nat)
    requires Shape(f, incoming) && b < |incoming|
  {
    incoming[b].Some? ==>
      forall edge :: edge in EdgesFrom(f.blocks[b], incoming[b].value) ==> Accounts(incoming, edge)
  }

  ghost predicate SettledBut(f: Function, incoming: Incoming, queue: seq<nat>)
    requires Shape(f, incoming)
  {
    forall b :: 0 <= b < |incoming| && b !in queue ==> Settled(f, incoming, b)
  }

  ghost predicate Started(f: Function, incoming: Incoming)
    requires Shape(f, incoming)
  {
    incoming[0].Some? && AtMost(incoming[0].value, EntryBits(f))
  }

  ghost predicate Inv(f: Function, incoming: Incoming) {
    Shape(f, incoming) && Witnessed(f, incoming) && Started(f, incoming)
  }

  // ----- operations act on one register at a time -----

  lemma {:induction false} WroteAllAt(a: Bits, b: Bits, ops: seq<Op>, r: nat)
    requires |a| == |b| && r < |a| && (a[r] ==> b[r])
    ensures WroteAll(a, ops)[r] ==> WroteAll(b, ops)[r]
    ensures a[r] ==> WroteAll(a, ops)[r]
  {
    if ops != [] {
      WroteAllAt(a, b, ops[..|ops| - 1], r);
    }
  }

  // ----- an edge brings what some run brings -----

  /** A run from the top of a block takes edge `k` of its terminator. */
  lemma JumpRuns(f: Function, m: Config, entry: Bits, k: nat) returns (n: Config)
    requires Reached(f, true, m) && Fits(f, m) && m.at == 0 && |entry| == |f.registers|
    requires var t := f.blocks[m.block].terminator; k < |t.Successors()| && t.Successors()[k] < |f.blocks|
    ensures Reached(f, true, n) && n.block == f.blocks[m.block].terminator.Successors()[k] && n.at == 0
    ensures |n.touched| == |entry|
    ensures var block := f.blocks[m.block];
            var state := OnEdge(WroteAll(entry, block.ops), block.terminator, k, true);
            forall r :: 0 <= r < |entry| && !m.touched[r] && !state[r] ==> !n.touched[r]
  {
    var block := f.blocks[m.block];
    var end := RunsThrough(f, true, m, |block.ops|);
    assert block.ops[..|block.ops|] == block.ops;
    n := Config(block.terminator.Successors()[k], 0,
                OnEdge(end.touched, block.terminator, k, true), OnEdge(end.bound, block.terminator, k, true));
    assert JumpStep(f, true, end, n, k);
    ReachedNext(f, true, end, n);
    forall r | 0 <= r < |entry| && !m.touched[r] && !OnEdge(WroteAll(entry, block.ops), block.terminator, k, true)[r]
      ensures !n.touched[r]
    {
      WroteAllAt(m.touched, entry, block.ops, r);
    }
  }

  lemma EdgeRuns(f: Function, m: Config, entry: Bits, edge: Edge) returns (n: Config)
    requires Reached(f, true, m) && Fits(f, m) && m.at == 0 && |entry| == |f.registers|
    requires edge in EdgesFrom(f.blocks[m.block], entry) && edge.target < |f.blocks|
    ensures Reached(f, true, n) && n.block == edge.target && n.at == 0 && |n.touched| == |entry| == |edge.state|
    ensures forall r :: 0 <= r < |entry| && !m.touched[r] && !edge.state[r] ==> !n.touched[r]
  {
    hide Reached, WroteAll, OnEdge;
    var block := f.blocks[m.block];
    var jumps := Jumps(block.terminator, WroteAll(entry, block.ops), 0);
    if edge in jumps {
      var k :| 0 <= k < |jumps| && jumps[k] == edge;
      n := JumpRuns(f, m, entry, k);
    } else {
      n := Config(edge.target, 0, m.touched, m.bound);
      assert FailStep(f, m, n);
      ReachedNext(f, true, m, n);
    }
  }

  lemma EdgeVouched(f: Function, b: nat, entry: Bits, edge: Edge)
    requires b < |f.blocks| && |entry| == |f.registers| && Vouched(f, b, entry)
    requires edge in EdgesFrom(f.blocks[b], entry) && edge.target < |f.blocks|
    ensures |edge.state| == |entry| && Vouched(f, edge.target, edge.state)
  {
    var m :| Reached(f, true, m) && m.block == b && m.at == 0;
    ReachedFits(f, true, m);
    var n := EdgeRuns(f, m, entry, edge);
    forall r | 0 <= r < |edge.state| && !edge.state[r]
      ensures EntersWithout(f, edge.target, r)
    {
      WroteAllAt(entry, entry, f.blocks[b].ops, r);
      assert EntersWithout(f, b, r);
      var m' :| Reached(f, true, m') && m'.block == b && m'.at == 0 && r < |m'.touched| && !m'.touched[r];
      ReachedFits(f, true, m');
      var n' := EdgeRuns(f, m', entry, edge);
    }
  }

  // ----- lowering one block's state -----

  /** `state` may replace what `incoming` holds for `target`. */
  ghost predicate Lowers(incoming: Incoming, target: nat, state: Bits)
    requires target < |incoming|
  {
    incoming[target].Some? ==> AtMost(state, incoming[target].value) && state != incoming[target].value
  }

  lemma LowerAccounts(incoming: Incoming, target: nat, state: Bits, edge: Edge)
    requires target < |incoming| && Lowers(incoming, target, state) && Accounts(incoming, edge)
    ensures Accounts(incoming[target := Some(state)], edge)
  {
  }

  lemma LowerSettles(f: Function, incoming: Incoming, target: nat, state: Bits, b: nat)
    requires Shape(f, incoming) && target < |incoming| && |state| == |f.registers| && Lowers(incoming, target, state)
    requires b < |incoming| && b != target && Settled(f, incoming, b)
    ensures Shape(f, incoming[target := Some(state)]) && Settled(f, incoming[target := Some(state)], b)
  {
    if incoming[b].Some? {
      forall edge | edge in EdgesFrom(f.blocks[b], incoming[b].value)
        ensures Accounts(incoming[target := Some(state)], edge)
      {
        LowerAccounts(incoming, target, state, edge);
      }
    }
  }

  lemma MeetVouched(f: Function, b: nat, x: Bits, y: Bits)
    requires |x| == |y| && Vouched(f, b, x) && Vouched(f, b, y)
    ensures Vouched(f, b, Meet(x, y))
  {
  }

  // ----- how much lowering is left -----

  ghost function Count(bits: Bits): (n: nat)
    ensures n <= |bits|
  {
    if bits == [] then 0 else Count(bits[1..]) + if bits[0] then 1 else 0
  }

  ghost function Weight(state: Option<Bits>, registers: nat): nat {
    if state.Some? then Count(state.value) else registers + 1
  }

  /** Set bits over all blocks, with a block nothing has reached above any state it could hold. */
  ghost function Total(incoming: Incoming, registers: nat): nat {
    if incoming == [] then 0 else Weight(incoming[0], registers) + Total(incoming[1..], registers)
  }

  lemma {:induction false} CountDrops(a: Bits, b: Bits)
    requires AtMost(a, b)
    ensures Count(a) <= Count(b) && (a != b ==> Count(a) < Count(b))
  {
    if a != [] {
      assert AtMost(a[1..], b[1..]);
      CountDrops(a[1..], b[1..]);
      assert a[1..] == b[1..] && a[0] == b[0] ==> a == b by {
        assert a == [a[0]] + a[1..] && b == [b[0]] + b[1..];
      }
    }
  }

  lemma {:induction false} TotalDrops(incoming: Incoming, registers: nat, target: nat, state: Option<Bits>)
    requires target < |incoming| && Weight(state, registers) < Weight(incoming[target], registers)
    ensures Total(incoming[target := state], registers) < Total(incoming, registers)
  {
    if target == 0 {
      assert incoming[target := state][1..] == incoming[1..];
    } else {
      TotalDrops(incoming[1..], registers, target - 1, state);
      assert incoming[target := state][1..] == incoming[1..][target - 1 := state];
    }
  }

  lemma LowerDrops(f: Function, incoming: Incoming, target: nat, state: Bits)
    requires Shape(f, incoming) && target < |incoming| && |state| == |f.registers| && Lowers(incoming, target, state)
    ensures Total(incoming[target := Some(state)], |f.registers|) < Total(incoming, |f.registers|)
  {
    if incoming[target].Some? {
      CountDrops(state, incoming[target].value);
    }
    TotalDrops(incoming, |f.registers|, target, Some(state));
  }

  // ----- the fixpoint -----

  /** What a turn of the queue has done after some of the edges of `id`. */
  ghost predicate Midway(f: Function, incoming: Incoming, queue: seq<nat>, id: nat, entry: Bits)
    requires Shape(f, incoming)
  {
    && id < |incoming|
    && (id !in queue ==> incoming[id] == Some(entry))
    && forall b :: 0 <= b < |incoming| && b !in queue && b != id ==> Settled(f, incoming, b)
  }

  lemma LowerKeeps(f: Function, incoming: Incoming, queue: seq<nat>, id: nat, entry: Bits, target: nat, state: Bits)
    requires Inv(f, incoming) && Midway(f, incoming, queue, id, entry)
    requires target < |incoming| && |state| == |f.registers| && Lowers(incoming, target, state) && Vouched(f, target, state)
    ensures Inv(f, incoming[target := Some(state)])
    ensures Midway(f, incoming[target := Some(state)], queue + [target], id, entry)
  {
    hide Settled, Vouched;
    var lowered := incoming[target := Some(state)];
    assert Shape(f, lowered);
    forall b | 0 <= b < |lowered| && b !in queue + [target] && b != id
      ensures Settled(f, lowered, b)
    {
      assert b !in queue && b != target;
      LowerSettles(f, incoming, target, state, b);
    }
  }

  /** Follow one edge, lowering its target's state where the edge brings less. */
  method FollowEdge(f: Function, incoming: Incoming, queue: seq<nat>, edge: Edge, ghost id: nat, ghost entry: Bits)
    returns (lowered: Incoming, queued: seq<nat>)
    requires Inv(f, incoming) && Midway(f, incoming, queue, id, entry)
    requires |edge.state| == |f.registers| && (edge.target < |f.blocks| ==> Vouched(f, edge.target, edge.state))
    ensures Inv(f, lowered) && Midway(f, lowered, queued, id, entry)
    ensures Accounts(lowered, edge) && forall e :: Accounts(incoming, e) ==> Accounts(lowered, e)
    ensures Total(lowered, |f.registers|) < Total(incoming, |f.registers|) || (lowered == incoming && queued == queue)
  {
    hide Inv, Midway, Vouched, Total;
    if edge.target >= |f.blocks| {
      InvShape(f, incoming);
      return incoming, queue;
    }
    InvShape(f, incoming);
    var merged := edge.state;
    if incoming[edge.target].Some? {
      var existing := incoming[edge.target].value;
      merged := Meet(existing, edge.state);
      if merged == existing {
        assert AtMost(existing, edge.state) by {
          assert forall r :: 0 <= r < |existing| ==> existing[r] == (existing[r] && edge.state[r]);
        }
        return incoming, queue;
      }
      InvVouched(f, incoming, edge.target);
      MeetVouched(f, edge.target, existing, edge.state);
    }
    assert Lowers(incoming, edge.target, merged);
    LowerKeeps(f, incoming, queue, id, entry, edge.target, merged);
    LowerDrops(f, incoming, edge.target, merged);
    lowered, queued := incoming[edge.target := Some(merged)], queue + [edge.target];
    forall e | Accounts(incoming, e)
      ensures Accounts(lowered, e)
    {
      LowerAccounts(incoming, edge.target, merged, e);
    }
  }

  lemma InvShape(f: Function, incoming: Incoming)
    requires Inv(f, incoming)
    ensures Shape(f, incoming)
  {
  }

  lemma InvVouched(f: Function, incoming: Incoming, b: nat)
    requires Inv(f, incoming) && b < |f.blocks| && incoming[b].Some?
    ensures Vouched(f, b, incoming[b].value)
  {
  }

  lemma StartVouched(f: Function)
    requires |f.blocks| > 0
    ensures Vouched(f, 0, EntryBits(f))
  {
    hide Reached;
    var m := Config(0, 0, EntryBits(f), EntryBits(f));
    ReachedStart(f, true, m);
  }

  lemma StartInv(f: Function, incoming: Incoming)
    requires |f.blocks| > 0 && |incoming| == |f.blocks| && incoming[0] == Some(EntryBits(f))
    requires forall b :: 1 <= b < |incoming| ==> incoming[b] == None
    ensures Inv(f, incoming) && SettledBut(f, incoming, [0])
  {
    hide Vouched, EdgesFrom, Accounts;
    StartVouched(f);
  }

  lemma TurnStarts(f: Function, incoming: Incoming, queue: seq<nat>)
    requires Inv(f, incoming) && queue != [] && SettledBut(f, incoming, queue)
    requires queue[0] < |f.blocks| && incoming[queue[0]].Some?
    ensures Midway(f, incoming, queue[1..], queue[0], incoming[queue[0]].value)
  {
    hide Settled;
    assert forall b :: b in queue ==> b == queue[0] || b in queue[1..];
  }

  lemma TurnEnds(f: Function, incoming: Incoming, queue: seq<nat>, id: nat, entry: Bits)
    requires Inv(f, incoming) && Midway(f, incoming, queue, id, entry)
    requires forall edge :: edge in EdgesFrom(f.blocks[id], entry) ==> Accounts(incoming, edge)
    ensures SettledBut(f, incoming, queue)
  {
  }

  lemma SkipSettled(f: Function, incoming: Incoming, queue: seq<nat>)
    requires Inv(f, incoming) && queue != [] && SettledBut(f, incoming, queue)
    requires queue[0] < |f.blocks| ==> incoming[queue[0]].None?
    ensures SettledBut(f, incoming, queue[1..])
  {
    hide EdgesFrom, Accounts;
    assert forall b :: b in queue ==> b == queue[0] || b in queue[1..];
  }

  /** What is written on entry to each block, over every path. */
  method Fixpoint(f: Function) returns (incoming: Incoming)
    requires |f.blocks| > 0
    ensures Inv(f, incoming) && SettledBut(f, incoming, [])
  {
    hide Inv, Midway, SettledBut, Settled, Vouched, Total, Accounts, EdgesFrom, WroteAll;
    incoming := seq(|f.blocks|, b => if b == 0 then Some(EntryBits(f)) else None);
    StartInv(f, incoming);
    var queue: seq<nat> := [0];
    while |queue| > 0
      invariant Inv(f, incoming) && Shape(f, incoming) && SettledBut(f, incoming, queue)
      decreases Total(incoming, |f.registers|), |queue|
    {
      var id := queue[0];
      if id >= |f.blocks| || incoming[id].None? {
        SkipSettled(f, incoming, queue);
        queue := queue[1..];
        continue;
      }
      TurnStarts(f, incoming, queue);
      queue := queue[1..];
      var block, entry := f.blocks[id], incoming[id].value;
      var state := WriteBlock(entry, block.ops);
      var edges := Jumps(block.terminator, state, 0);
      if block.errorTarget.Some? {
        edges := edges + [Edge(block.errorTarget.value, entry)];
      }
      EdgesAre(block, entry, edges);
      InvVouched(f, incoming, id);
      ghost var was, length := incoming, |queue|;
      for i := 0 to |edges|
        invariant Inv(f, incoming) && Shape(f, incoming) && Midway(f, incoming, queue, id, entry)
        invariant forall j :: 0 <= j < i ==> Accounts(incoming, edges[j])
        invariant Total(incoming, |f.registers|) < Total(was, |f.registers|) || (incoming == was && |queue| == length)
      {
        if edges[i].target < |f.blocks| {
          EdgeVouched(f, id, entry, edges[i]);
        }
        EdgeFits(block, entry, edges[i]);
        incoming, queue := FollowEdge(f, incoming, queue, edges[i], id, entry);
        InvShape(f, incoming);
      }
      TurnEnds(f, incoming, queue, id, entry);
    }
    assert queue == [];
  }

  lemma EdgesAre(block: Block, entry: Bits, edges: seq<Edge>)
    requires edges == Jumps(block.terminator, WroteAll(entry, block.ops), 0)
                      + if block.errorTarget.Some? then [Edge(block.errorTarget.value, entry)] else []
    ensures edges == EdgesFrom(block, entry)
  {
  }

  lemma EdgeFits(block: Block, entry: Bits, edge: Edge)
    requires edge in EdgesFrom(block, entry)
    ensures |edge.state| == |entry|
  {
  }

  method WriteBlock(entry: Bits, ops: seq<Op>) returns (state: Bits)
    ensures state == WroteAll(entry, ops)
  {
    state := entry;
    for i := 0 to |ops|
      invariant state == WroteAll(entry, ops[..i])
    {
      assert ops[..i + 1][..i] == ops[..i];
      if ops[i].Dest().Some? && ops[i].Dest().value < |state| {
        state := state[ops[i].Dest().value := true];
      }
    }
    assert ops[..|ops|] == ops;
  }

  // ----- a settled fixpoint covers every run -----

  /** What the fixpoint says is written where `m` stands, `m` has written. */
  ghost predicate Covers(f: Function, incoming: Incoming, m: Config)
    requires Shape(f, incoming)
  {
    && Fits(f, m) && incoming[m.block].Some?
    && AtMost(WroteAll(incoming[m.block].value, f.blocks[m.block].ops[..m.at]), m.touched)
  }

  lemma AtMostFrom(entry: Bits, touched: Bits, ops: seq<Op>)
    requires |entry| == |touched| && AtMost(WroteAll(entry, ops), touched)
    ensures AtMost(entry, touched)
  {
    forall r | 0 <= r < |entry| && entry[r]
      ensures touched[r]
    {
      WroteAllAt(entry, entry, ops, r);
    }
  }

  lemma EntryCovers(f: Function, incoming: Incoming, edge: Edge, n: Config)
    requires Shape(f, incoming) && Fits(f, n) && n.block == edge.target && n.at == 0
    requires Accounts(incoming, edge) && AtMost(edge.state, n.touched)
    ensures Covers(f, incoming, n)
  {
  }

  lemma OpCovers(f: Function, incoming: Incoming, m: Config, n: Config)
    requires Shape(f, incoming) && Covers(f, incoming, m) && OpStep(f, m, n)
    ensures Covers(f, incoming, n)
  {
    var ops := f.blocks[m.block].ops;
    assert ops[..n.at][..m.at] == ops[..m.at];
  }

  lemma FailCovers(f: Function, incoming: Incoming, m: Config, n: Config)
    requires Shape(f, incoming) && Covers(f, incoming, m) && FailStep(f, m, n) && Settled(f, incoming, m.block)
    ensures Covers(f, incoming, n)
  {
    var block, entry := f.blocks[m.block], incoming[m.block].value;
    AtMostFrom(entry, m.touched, block.ops[..m.at]);
    var edge := Edge(n.block, entry);
    assert edge in EdgesFrom(block, entry);
    EntryCovers(f, incoming, edge, n);
  }

  lemma JumpCovers(f: Function, incoming: Incoming, m: Config, n: Config, k: nat)
    requires Shape(f, incoming) && Covers(f, incoming, m) && JumpStep(f, true, m, n, k) && Settled(f, incoming, m.block)
    ensures Covers(f, incoming, n)
  {
    var block, entry := f.blocks[m.block], incoming[m.block].value;
    assert block.ops[..m.at] == block.ops;
    var edge := Jumps(block.terminator, WroteAll(entry, block.ops), 0)[k];
    assert edge in EdgesFrom(block, entry);
    EntryCovers(f, incoming, edge, n);
  }

  lemma {:induction false} RunCovers(f: Function, incoming: Incoming, t: seq<Config>)
    requires Inv(f, incoming) && SettledBut(f, incoming, []) && IsRun(f, true, t)
    ensures Covers(f, incoming, t[|t| - 1])
  {
    hide EdgesFrom, Accounts;
    if |t| > 1 {
      RunCovers(f, incoming, t[..|t| - 1]);
      var m, n := t[|t| - 2], t[|t| - 1];
      assert Settled(f, incoming, m.block);
      if OpStep(f, m, n) {
        OpCovers(f, incoming, m, n);
      } else if FailStep(f, m, n) {
        FailCovers(f, incoming, m, n);
      } else {
        var k :| JumpStep(f, true, m, n, k);
        JumpCovers(f, incoming, m, n, k);
      }
    }
  }

  // ----- collecting the reads -----

  /** The pass finds `r` read at `at` of block `b` with its bit clear. */
  ghost predicate NotedAt(f: Function, incoming: Incoming, b: nat, at: nat, r: nat)
    requires Shape(f, incoming) && b < |f.blocks| && at <= |f.blocks[b].ops|
  {
    && Named(f, r) && incoming[b].Some?
    && Register(r) in ReadsAt(f, b, at)
    && !WroteAll(incoming[b].value, f.blocks[b].ops[..at])[r]
  }

  ghost predicate Noted(f: Function, incoming: Incoming, r: nat)
    requires Shape(f, incoming)
  {
    exists b: nat, at: nat :: b < |f.blocks| && at <= |f.blocks[b].ops| && NotedAt(f, incoming, b, at, r)
  }

  lemma {:induction false} WroteNot(a: Bits, b: Bits, ops: seq<Op>, r: nat)
    requires |a| == |b| && r < |a| && !WroteAll(a, ops)[r] && !b[r]
    ensures !WroteAll(b, ops)[r]
  {
    if ops != [] {
      WroteNot(a, b, ops[..|ops| - 1], r);
    }
  }

  lemma NotedIsRead(f: Function, incoming: Incoming, b: nat, at: nat, r: nat)
    requires Inv(f, incoming) && b < |f.blocks| && at <= |f.blocks[b].ops| && NotedAt(f, incoming, b, at, r)
    ensures ReadUntouched(f, true, r)
  {
    var entry := incoming[b].value;
    InvVouched(f, incoming, b);
    WroteAllAt(entry, entry, f.blocks[b].ops[..at], r);
    assert EntersWithout(f, b, r);
    var m :| Reached(f, true, m) && m.block == b && m.at == 0 && r < |m.touched| && !m.touched[r];
    ReachedFits(f, true, m);
    var n := RunsThrough(f, true, m, at);
    WroteNot(entry, m.touched, f.blocks[b].ops[..at], r);
  }

  /** The pass collects exactly the named registers some path reads before any write. */
  lemma NotedExactly(f: Function, incoming: Incoming, r: nat)
    requires Inv(f, incoming) && SettledBut(f, incoming, [])
    ensures Noted(f, incoming, r) <==> ReadUntouched(f, true, r)
  {
    if Noted(f, incoming, r) {
      var b: nat, at: nat :| b < |f.blocks| && at <= |f.blocks[b].ops| && NotedAt(f, incoming, b, at, r);
      NotedIsRead(f, incoming, b, at, r);
    }
    if ReadUntouched(f, true, r) {
      var m :| Reached(f, true, m) && Reads(f, m, r) && !m.touched[r];
      var t :| IsRun(f, true, t) && t[|t| - 1] == m;
      RunCovers(f, incoming, t);
      assert NotedAt(f, incoming, m.block, m.at, r);
    }
  }

  /** Note every register among `values` whose bit is clear and which has a name. */
  method NoteValues(f: Function, values: seq<Value>, state: Bits, found: Bits) returns (noted: Bits)
    requires |state| == |found| == |f.registers|
    ensures |noted| == |found|
    ensures forall r :: 0 <= r < |found| ==>
              noted[r] == (found[r] || (Register(r) in values && !state[r] && Named(f, r)))
  {
    noted := found;
    for i := 0 to |values|
      invariant |noted| == |found|
      invariant forall r :: 0 <= r < |found| ==>
                  noted[r] == (found[r] || (Register(r) in values[..i] && !state[r] && Named(f, r)))
    {
      if values[i].Register? && values[i].id < |state| && !state[values[i].id] && f.registers[values[i].id].name.Some? {
        noted := noted[values[i].id := true];
      }
      assert values[..i + 1] == values[..i] + [values[i]];
    }
    assert values[..|values|] == values;
  }

  ghost predicate NotedBefore(f: Function, incoming: Incoming, b: nat, end: nat, r: nat)
    requires Shape(f, incoming) && b < |f.blocks| && end <= |f.blocks[b].ops| + 1
  {
    exists at: nat :: at < end && at <= |f.blocks[b].ops| && NotedAt(f, incoming, b, at, r)
  }

  /** Note the reads of one block, writing as its operations do. */
  method NoteBlock(f: Function, incoming: Incoming, b: nat, found: Bits) returns (noted: Bits)
    requires Shape(f, incoming) && b < |f.blocks| && |found| == |f.registers|
    ensures |noted| == |found|
    ensures forall r: nat :: r < |found| ==>
              (noted[r] <==> found[r] || NotedBefore(f, incoming, b, |f.blocks[b].ops| + 1, r))
  {
    noted := found;
    if incoming[b].None? {
      return;
    }
    var block, state := f.blocks[b], incoming[b].value;
    for i := 0 to |block.ops|
      invariant |noted| == |found| && |state| == |f.registers|
      invariant state == WroteAll(incoming[b].value, block.ops[..i])
      invariant forall r: nat :: r < |found| ==> (noted[r] <==> found[r] || NotedBefore(f, incoming, b, i, r))
    {
      noted := NoteValues(f, block.ops[i].Operands(), state, noted);
      NotedNext(f, incoming, b, i);
      assert block.ops[..i + 1][..i] == block.ops[..i];
      if block.ops[i].Dest().Some? && block.ops[i].Dest().value < |state| {
        state := state[block.ops[i].Dest().value := true];
      }
    }
    noted := NoteValues(f, block.terminator.Operands(), state, noted);
    NotedNext(f, incoming, b, |block.ops|);
  }

  lemma NotedNext(f: Function, incoming: Incoming, b: nat, at: nat)
    requires Shape(f, incoming) && b < |f.blocks| && at <= |f.blocks[b].ops|
    ensures forall r: nat :: NotedBefore(f, incoming, b, at + 1, r) <==>
                             NotedBefore(f, incoming, b, at, r) || NotedAt(f, incoming, b, at, r)
  {
  }

  /** The registers some path reads without having written, in order. */
  method UnassignedReads(f: Function) returns (unassigned: seq<nat>)
    ensures forall r: nat :: r in unassigned <==> ReadUntouched(f, true, r)
    ensures forall r: nat :: r in unassigned <==> ReadBeforeWrite(f, true, r)
    ensures forall i, j :: 0 <= i < j < |unassigned| ==> unassigned[i] < unassigned[j]
  {
    hide Inv, SettledBut, NotedAt, ReadUntouched, ReadBeforeWrite;
    forall r: nat ensures ReadUntouched(f, true, r) <==> ReadBeforeWrite(f, true, r) { ReadUntouchedMeans(f, true, r); }
    unassigned := [];
    if |f.blocks| == 0 {
      NoBlocks(f);
      return;
    }
    var incoming := Fixpoint(f);
    InvShape(f, incoming);
    var found: Bits := seq(|f.registers|, _ => false);
    for b := 0 to |f.blocks|
      invariant |found| == |f.registers|
      invariant forall r: nat :: r < |found| ==>
                  (found[r] <==> exists c: nat :: c < b && NotedBefore(f, incoming, c, |f.blocks[c].ops| + 1, r))
    {
      found := NoteBlock(f, incoming, b, found);
    }
    forall r: nat
      ensures r < |found| && found[r] <==> ReadUntouched(f, true, r)
    {
      FoundIs(f, incoming, found, r);
    }
    for r := 0 to |found|
      invariant forall q: nat :: q in unassigned <==> q < r && found[q]
      invariant forall i, j :: 0 <= i < j < |unassigned| ==> unassigned[i] < unassigned[j]
    {
      if found[r] {
        assert forall i :: 0 <= i < |unassigned| ==> unassigned[i] in unassigned;
        unassigned := unassigned + [r];
      }
    }
  }

  lemma NoBlocks(f: Function)
    requires |f.blocks| == 0
    ensures forall r: nat :: !ReadUntouched(f, true, r)
  {
  }

  lemma FoundIs(f: Function, incoming: Incoming, found: Bits, r: nat)
    requires Inv(f, incoming) && SettledBut(f, incoming, []) && |found| == |f.registers|
    requires r < |found| ==>
               (found[r] <==> exists c: nat :: c < |f.blocks| && NotedBefore(f, incoming, c, |f.blocks[c].ops| + 1, r))
    ensures r < |found| && found[r] <==> ReadUntouched(f, true, r)
  {
    hide Inv, SettledBut, ReadUntouched;
    InvShape(f, incoming);
    NotedExactly(f, incoming, r);
    if Noted(f, incoming, r) {
      var b: nat, at: nat :| b < |f.blocks| && at <= |f.blocks[b].ops| && NotedAt(f, incoming, b, at, r);
      assert NotedBefore(f, incoming, b, |f.blocks[b].ops| + 1, r);
    }
  }
}
