/** A reader of bytecode: does the code at `pc` say what this form says, and where
    does it end? It is independent of how the compiler produced the bytes, looks at
    jump targets instead of jump instructions being patched, and is what the machine's
    correctness is proved from. */
module Layout {
  import opened Bytes
  import opened Options
  import opened Lang
  import opened Bytecode
  import opened CompileFacts

  /** The target of the jump whose offset bytes are at `pos`: signed, big-endian,
      relative to the byte after them. */
  function Target(code: seq<byte>, pos: nat): int
    requires pos + 1 < |code|
  {
    var hi: int := code[pos];
    var u := hi * 256 + code[pos + 1];
    pos + 2 + if u >= 32768 then u - 65536 else u
  }

  /** The instruction's constant operand and the next instruction, narrow or wide form. */
  function Operand(code: seq<byte>, pc: nat, narrow: byte, wide: byte): Option<(nat, nat)> {
    if pc + 1 < |code| && code[pc] == narrow then Some((code[pc + 1], pc + 2))
    else if pc + 2 < |code| && code[pc] == wide then
      var hi: int := code[pc + 1];
      Some((hi * 256 + code[pc + 2], pc + 3))
    else None
  }

  function Indexed(k: Code, pc: nat, narrow: byte, wide: byte, v: Ast): (q: Option<nat>)
    ensures q.Some? ==> pc < q.value <= |k.code|
  {
    var (idx, next) :- Operand(k.code, pc, narrow, wide);
    if idx < |k.consts| && k.consts[idx] == v then Some(next) else None
  }

  function Const(k: Code, pc: nat, v: Ast): (q: Option<nat>)
    ensures q.Some? ==> pc < q.value <= |k.code|
  {
    Indexed(k, pc, OP_LOADCONST, OP_LOADCONST_W, v)
  }

  function Op(k: Code, pc: nat, op: byte): (q: Option<nat>)
    ensures q.Some? ==> pc < q.value <= |k.code|
  {
    if pc < |k.code| && k.code[pc] == op then Some(pc + 1) else None
  }

  function Op1(k: Code, pc: nat, op: byte, arg: nat): (q: Option<nat>)
    ensures q.Some? ==> pc < q.value <= |k.code|
  {
    if pc + 1 < |k.code| && k.code[pc] == op && k.code[pc + 1] == arg then Some(pc + 2) else None
  }

  /** A jump and the position it goes to. */
  function Jump(k: Code, pc: nat, op: byte): Option<int> {
    if pc + 2 < |k.code| && k.code[pc] == op then Some(Target(k.code, pc + 1)) else None
  }

  function Reads(ct: Builtins, k: Code, scope: Scope, pc: nat, a: Ast): (q: Option<nat>)
    ensures q.Some? ==> pc < q.value <= |k.code|
    decreases a
  {
    match a
    case Name(s) =>
      var slot := Find(scope, s);
      if slot.Some? then Op1(k, pc, OP_LOADENV, slot.value)
      else Indexed(k, pc, OP_RESOLVE, OP_RESOLVE_W, a)
    case Lit(_) => Const(k, pc, a)
    case List(es) => if es == [] then Const(k, pc, a) else ReadsList(ct, k, scope, pc, es)
  }

  function ReadsList(ct: Builtins, k: Code, scope: Scope, pc: nat, es: seq<Ast>): (q: Option<nat>)
    requires es != []
    ensures q.Some? ==> pc < q.value <= |k.code|
    decreases es, |es| + 1
  {
    match ShapeOf(ct, es)
    case ShDyn =>
      var p1 :- Const(k, pc, List(es));
      Op1(k, p1, OP_CALLD, 0)
    case ShLet =>
      if !es[1].Name? then None else
      var p1 :- Reads(ct, k, scope, pc, es[2]);
      var p2 :- Op(k, p1, OP_DUP);
      var slot :- Find(ScopeAfterList(ct, scope, es), es[1].s);
      Op1(k, p2, OP_STOREENV, slot)
    case ShIf => ReadsIf(ct, k, scope, pc, es)
    case ShDo => ReadsSeq(ct, k, scope, pc, es, 1, 1)
    case ShTry => ReadsTry(ct, k, scope, pc, es)
    case ShSelf =>
      var p1 :- ReadsAll(ct, k, scope, pc, es, 1);
      Op1(k, p1, OP_CALLS, |es| - 1)
    case ShBuiltin(p) =>
      var p1 :- Const(k, pc, Lit(Builtin(p)));
      var p2 :- ReadsAll(ct, k, scope, p1, es, 1);
      if p.kind == Unary && |es| == 2 then Op(k, p2, OP_CALL1)
      else if p.kind == Binary && |es| == 3 then Op(k, p2, OP_CALL2)
      else if p.kind == Vary then Op1(k, p2, OP_CALLN, |es| - 1)
      else Op1(k, p2, OP_CALLF, |es| - 1)
    case ShCall =>
      var p1 :- Reads(ct, k, scope, pc, es[0]);
      var p2 :- ReadsAll(ct, k, ScopeAfter(ct, scope, es[0]), p1, es, 1);
      Op1(k, p2, OP_CALLF, |es| - 1)
  }

  function ReadsIf(ct: Builtins, k: Code, scope: Scope, pc: nat, es: seq<Ast>): (q: Option<nat>)
    requires |es| >= 3
    ensures q.Some? ==> pc < q.value <= |k.code|
    decreases es, |es|
  {
    var s1 := ScopeAfter(ct, scope, es[1]);
    var p1 :- Reads(ct, k, scope, pc, es[1]);
    var els :- Jump(k, p1, OP_JMPF);
    var p2 :- Reads(ct, k, s1, p1 + 3, es[2]);
    var end :- Jump(k, p2, OP_JMP);
    if els != p2 + 3 then None else
    var p3 :- if |es| >= 4 then Reads(ct, k, ScopeAfter(ct, s1, es[2]), p2 + 3, es[3])
              else Const(k, p2 + 3, Lit(ZERO));
    if end == p3 then Some(p3) else None
  }

  function ReadsTry(ct: Builtins, k: Code, scope: Scope, pc: nat, es: seq<Ast>): (q: Option<nat>)
    requires |es| == 3
    ensures q.Some? ==> pc < q.value <= |k.code|
    decreases es, |es|
  {
    var s0 := scope + [None];
    var handler :- Jump(k, pc, OP_TRAP);
    var p1 :- Reads(ct, k, s0, pc + 3, es[1]);
    var p2 :- Op(k, p1, OP_TRAP_END);
    var end :- Jump(k, p2, OP_JMP);
    if handler != p2 + 3 then None else
    var p3 :- Op1(k, p2 + 3, OP_STOREENV, |scope|);
    var p4 :- Reads(ct, k, ScopeAfter(ct, s0, es[1]), p3, es[2]);
    var p5 :- Op1(k, p4, OP_LOADENV, |scope|);
    var p6 :- Op1(k, p5, OP_CALLF, 1);
    if end == p6 then Some(p6) else None
  }

  function ReadsAll(ct: Builtins, k: Code, scope: Scope, pc: nat, es: seq<Ast>, i: nat): (q: Option<nat>)
    requires i <= |es|
    ensures q.Some? && pc <= |k.code| ==> pc <= q.value <= |k.code|
    decreases es, |es| - i
  {
    if i == |es| then Some(pc)
    else
      var p1 :- Reads(ct, k, scope, pc, es[i]);
      ReadsAll(ct, k, ScopeAfter(ct, scope, es[i]), p1, es, i + 1)
  }

  function ReadsSeq(ct: Builtins, k: Code, scope: Scope, pc: nat, es: seq<Ast>, lo: nat, i: nat): (q: Option<nat>)
    requires lo <= i <= |es|
    ensures q.Some? && pc <= |k.code| ==> pc <= q.value <= |k.code|
    decreases es, |es| - i
  {
    if i == |es| then Some(pc)
    else
      var p0 :- if i > lo then Op(k, pc, OP_POP) else Some(pc);
      var p1 :- Reads(ct, k, scope, p0, es[i]);
      ReadsSeq(ct, k, ScopeAfter(ct, scope, es[i]), p1, es, lo, i + 1)
  }

  /** A whole lambda: its body and then the return. */
  function ReadsBody(ct: Builtins, k: Code, params: seq<Sym>, body: seq<Ast>): Option<nat> {
    var p :- ReadsSeq(ct, k, ParamScope(params), 0, body, 0, 0);
    Op(k, p, OP_RET)
  }
}
