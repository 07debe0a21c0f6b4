/**
 The intermediate representation, as far as the analyses ask about it: what an operation
 writes, reads, unbinds and names, where a block can go next, and what a class stands on.
 */
module Ir {

  datatype Option<+T> = None | Some(value: T)

  /** An operand: a register, or an immediate that is always there to read. */
  datatype Value = Register(id: nat) | Immediate

  datatype Position = Position(offset: nat, generatorExpression: bool)

  /** The operations some analysis tells apart; every other one is a `Plain`. */
  datatype Op =
    | CallNative(owner: Option<string>, callee: string, result: Option<nat>, args: seq<Value>)
    | Assign(target: nat, src: Value)
    | Unbox(target: nat, src: Value, toInstance: bool, classes: seq<string>)
    | DeleteLocal(target: nat)
    | Line(position: Position)
    | Plain(result: Option<nat>, inputs: seq<Value>, classes: seq<string>)
  {
    /** The register this leaves a value in. `del` counts: it is a write to any forward analysis. */
    function Dest(): Option<nat> {
      match this
      case CallNative(_, _, result, _) => result
      case Assign(target, _) => Some(target)
      case Unbox(target, _, _, _) => Some(target)
      case DeleteLocal(target) => Some(target)
      case Line(_) => None
      case Plain(result, _, _) => result
    }

    function Operands(): seq<Value> {
      match this
      case CallNative(_, _, _, args) => args
      case Assign(_, src) => [src]
      case Unbox(_, src, _, _) => [src]
      case DeleteLocal(_) => []
      case Line(_) => []
      case Plain(_, inputs, _) => inputs
    }

    function Unbinds(): Option<nat> {
      if DeleteLocal? then Some(target) else None
    }

    function NamedClasses(): seq<string> {
      match this
      case CallNative(owner, _, _, _) => if owner.Some? then [owner.value] else []
      case Unbox(_, _, _, classes) => classes
      case Plain(_, _, classes) => classes
      case _ => []
    }
  }

  datatype Terminator =
    | Goto(to: nat)
    | Branch(cond: Value, thenBlock: nat, elseBlock: nat)
    | Return(value: Value)
    | NarrowShort(dest: nat, src: Value, fits: nat, otherwise: nat)
    | MachineStep(dest: nat, lhs: Value, rhs: Value, fits: nat, otherwise: nat)
    | Unreachable
  {
    function Successors(): seq<nat> {
      match this
      case Goto(to) => [to]
      case Branch(_, thenBlock, elseBlock) => [thenBlock, elseBlock]
      case NarrowShort(_, _, fits, otherwise) => [fits, otherwise]
      case MachineStep(_, _, _, fits, otherwise) => [fits, otherwise]
      case Return(_) => []
      case Unreachable => []
    }

    /** The register written, and the block its edge leads to. */
    function WrittenOnEdge(): Option<(nat, nat)> {
      if NarrowShort? || MachineStep? then Some((dest, fits)) else None
    }

    function Operands(): seq<Value> {
      match this
      case Branch(cond, _, _) => [cond]
      case Return(value) => [value]
      case NarrowShort(_, src, _, _) => [src]
      case MachineStep(_, lhs, rhs, _, _) => [lhs, rhs]
      case _ => []
    }
  }

  datatype Block = Block(
    ops: seq<Op>,
    terminator: Terminator,
    errorTarget: Option<nat>,
    range: Option<(nat, nat)>,
    position: Option<Position>)

  datatype RegisterDecl = RegisterDecl(name: Option<string>, mayBeUnassigned: bool)

  /** A decorator, and whether it only writes attributes onto what it was handed. */
  datatype Decorator = Decorator(marksOnly: bool)

  datatype Function = Function(
    name: string,
    owner: Option<string>,
    paramCount: nat,
    registers: seq<RegisterDecl>,
    blocks: seq<Block>,
    decorators: seq<Decorator>,
    nested: bool)
  {
    function QualifiedName(): string {
      Qualify(owner, name)
    }

    /** Every operation of the body, block by block. */
    function Ops(): seq<Op> {
      OpsOf(blocks)
    }
  }

  function OpsOf(blocks: seq<Block>): seq<Op> {
    if blocks == [] then [] else blocks[0].ops + OpsOf(blocks[1..])
  }

  function Qualify(owner: Option<string>, name: string): string {
    if owner.Some? then owner.value + "." + name else name
  }

  datatype ClassBase = InModule(name: string) | External(paths: seq<string>)
  {
    /** The bases written as a bare name. */
    function PlainNames(): seq<string> {
      match this
      case InModule(name) => [name]
      case External(paths) => WithoutDots(paths)
    }
  }

  function WithoutDots(paths: seq<string>): seq<string> {
    if paths == [] then []
    else (if '.' in paths[0] then [] else [paths[0]]) + WithoutDots(paths[1..])
  }

  datatype Property = Property(getter: Option<string>, setter: Option<string>, deleter: Option<string>)
  {
    predicate Holds(half: string) {
      getter == Some(half) || setter == Some(half) || deleter == Some(half)
    }
  }

  datatype ClassIr = ClassIr(
    name: string,
    exported: bool,
    environment: bool,
    resume: Option<string>,
    base: Option<ClassBase>,
    slots: Option<seq<string>>,
    constants: seq<string>,
    methods: seq<Function>,
    properties: seq<Property>,
    keywords: seq<string>)

  datatype ModuleIr = ModuleIr(functions: seq<Function>, classes: seq<ClassIr>)
  {
    /** Every compiled function, methods included. */
    function AllFunctions(): seq<Function> {
      functions + MethodsOf(classes)
    }
  }

  function MethodsOf(classes: seq<ClassIr>): seq<Function> {
    if classes == [] then [] else classes[0].methods + MethodsOf(classes[1..])
  }

  // ----- what those accessors say, by field -----

  /** What an operation leaves a value in, what it reads, and what it unbinds. */
  lemma Accessors(op: Op, r: nat, v: Value)
    ensures op.Dest() == Some(r) <==>
            || (op.CallNative? && op.result == Some(r)) || (op.Plain? && op.result == Some(r))
            || ((op.Assign? || op.Unbox? || op.DeleteLocal?) && op.target == r)
    ensures v in op.Operands() <==>
            (op.CallNative? && v in op.args) || (op.Plain? && v in op.inputs) || ((op.Assign? || op.Unbox?) && op.src == v)
    ensures op.Unbinds() == Some(r) <==> op == DeleteLocal(r)
  {
  }

  /** A call names the class whose method it calls, and no other. */
  lemma ClassesNamed(op: Op, c: string)
    ensures c in op.NamedClasses() <==>
            (op.CallNative? && op.owner == Some(c)) || ((op.Unbox? || op.Plain?) && c in op.classes)
  {
  }

  /** Where a terminator leads, edge by edge, what it reads, and which edge writes what. */
  lemma Exits(t: Terminator, to: nat, v: Value)
    ensures to in t.Successors() <==>
            || (t.Goto? && t.to == to) || (t.Branch? && (t.thenBlock == to || t.elseBlock == to))
            || ((t.NarrowShort? || t.MachineStep?) && (t.fits == to || t.otherwise == to))
    ensures |t.Successors()| == if t.Return? || t.Unreachable? then 0 else if t.Goto? then 1 else 2
    ensures t.NarrowShort? || t.MachineStep? ==> t.WrittenOnEdge() == Some((t.dest, t.Successors()[0]))
    ensures !t.NarrowShort? && !t.MachineStep? ==> t.WrittenOnEdge() == None
    ensures v in t.Operands() <==>
            || (t.Branch? && t.cond == v) || (t.Return? && t.value == v) || (t.NarrowShort? && t.src == v)
            || (t.MachineStep? && (t.lhs == v || t.rhs == v))
  {
  }

  /** Every operation of every block is one of the body's, and no other is. */
  lemma {:induction false} OpsOfHas(blocks: seq<Block>, op: Op)
    ensures op in OpsOf(blocks) <==> exists b, i :: 0 <= b < |blocks| && 0 <= i < |blocks[b].ops| && blocks[b].ops[i] == op
  {
    if blocks != [] {
      OpsOfHas(blocks[1..], op);
      if b, i :| 0 <= b < |blocks| && 0 <= i < |blocks[b].ops| && blocks[b].ops[i] == op {
        if b > 0 { assert blocks[1..][b - 1].ops[i] == op; }
      }
    }
  }

  /** The functions of a module are those at its top level and the methods of every class. */
  lemma AllFunctionsHas(m: ModuleIr, f: Function)
    ensures f in m.AllFunctions() <==> f in m.functions || exists c :: c in m.classes && f in c.methods
  {
    MethodsOfHas(m.classes, f);
  }

  lemma {:induction false} MethodsOfHas(classes: seq<ClassIr>, f: Function)
    ensures f in MethodsOf(classes) <==> exists c :: c in classes && f in c.methods
  {
    if classes != [] {
      MethodsOfHas(classes[1..], f);
      assert forall c :: c in classes <==> c == classes[0] || c in classes[1..];
    }
  }

  /** They stand in the order of the module: the methods of one class follow those of the classes before it. */
  lemma {:induction false} MethodsInOrder(before: seq<ClassIr>, c: ClassIr, after: seq<ClassIr>)
    ensures MethodsOf(before + [c] + after) == MethodsOf(before) + c.methods + MethodsOf(after)
  {
    var classes := before + [c] + after;
    if before == [] {
      assert classes[0] == c && classes[1..] == after;
    } else {
      MethodsInOrder(before[1..], c, after);
      assert classes[1..] == before[1..] + [c] + after;
    }
  }

  /** The functions at the top level stand before every method. */
  lemma FunctionsFirst(m: ModuleIr)
    ensures |m.functions| <= |m.AllFunctions()| && m.AllFunctions()[..|m.functions|] == m.functions
    ensures m.AllFunctions()[|m.functions|..] == MethodsOf(m.classes)
  {
  }

  /** The operations of a block stand after those of the blocks before it. */
  lemma {:induction false} OpsInOrder(before: seq<Block>, b: Block, after: seq<Block>)
    ensures OpsOf(before + [b] + after) == OpsOf(before) + b.ops + OpsOf(after)
  {
    var blocks := before + [b] + after;
    if before == [] {
      assert blocks[0] == b && blocks[1..] == after;
    } else {
      OpsInOrder(before[1..], b, after);
      assert blocks[1..] == before[1..] + [b] + after;
    }
  }

  /** A base is named plainly just when no dot stands in its path. */
  lemma {:induction false} WithoutDotsHas(paths: seq<string>, path: string)
    ensures path in WithoutDots(paths) <==> path in paths && '.' !in path
  {
    if paths != [] { WithoutDotsHas(paths[1..], path); }
  }
}
