/** The instruction set and the compiler as functions of the compiler's state. */
module Bytecode {
  import opened Bytes
  import opened Options
  import opened Lang

  const OP_RET: byte := 0
  const OP_JMP: byte := 1
  const OP_JMPF: byte := 2
  const OP_LOADCONST: byte := 3
  const OP_LOADENV: byte := 4
  const OP_STOREENV: byte := 5
  const OP_POP: byte := 6
  const OP_RESOLVE: byte := 7
  const OP_CALL1: byte := 8
  const OP_CALL2: byte := 9
  const OP_CALLN: byte := 10
  const OP_CALLF: byte := 11
  const OP_CALLS: byte := 12
  const OP_CALLD: byte := 13
  const OP_DUP: byte := 14
  const OP_LOADCONST_W: byte := 15
  const OP_RESOLVE_W: byte := 16
  const OP_TRAP: byte := 17
  const OP_TRAP_END: byte := 18

  const MAX_POOL := 65536

  /** `maxLocals` is the high-water mark of `|locals|`. */
  datatype CState = CState(code: seq<byte>, consts: seq<Ast>, locals: Scope, maxLocals: nat, error: bool)

  function Fail(c: CState): CState { c.(error := true) }

  function Emit(c: CState, b: byte): CState { c.(code := c.code + [b]) }

  function EmitOp(c: CState, op: byte, arg: byte): CState { Emit(Emit(c, op), arg) }

  /** A one-byte index if it fits, otherwise the wide form; the wide index keeps
      only its low sixteen bits. */
  function EmitIndexed(c: CState, narrow: byte, wide: byte, idx: nat): CState {
    if idx < 256 then EmitOp(c, narrow, idx)
    else Emit(EmitOp(c, wide, (idx / 256) % 256), idx % 256)
  }

  function EmitConst(c: CState, idx: nat): CState { EmitIndexed(c, OP_LOADCONST, OP_LOADCONST_W, idx) }

  /** Constants that share a pool entry: atoms with the same payload, or the same object. */
  predicate SameConstant(a: Ast, b: Ast) {
    match (a, b)
    case (Lit(v), Lit(u)) =>
      v == u && (v.I64? || v.F64? || v.Bool? || v.SymLit? || v.Obj? || v.Null? || v.Builtin?)
    case (Name(s), Name(t)) => s == t
    case _ => false
  }

  /** First pool entry that can stand for `v`, scanning from `i`. */
  function FindConstant(consts: seq<Ast>, v: Ast, i: nat): (r: nat)
    requires i <= |consts|
    ensures i <= r <= |consts|
    ensures r < |consts| ==> consts[r] == v
    decreases |consts| - i
  {
    if i == |consts| then i
    else if SameConstant(consts[i], v) then i
    else FindConstant(consts, v, i + 1)
  }

  function AddConstant(c: CState, v: Ast): (CState, nat) {
    var i := FindConstant(c.consts, v, 0);
    if i < |c.consts| then (c, i) else (c.(consts := c.consts + [v]), i)
  }

  function LoadConstant(c: CState, v: Ast): CState {
    var (c1, idx) := AddConstant(c, v);
    EmitConst(c1, idx)
  }

  function AddLocal(c: CState, l: Option<Sym>): (CState, Option<nat>) {
    if |c.locals| >= MAX_LOCALS then (c, None)
    else
      var slot := |c.locals|;
      var c1 := c.(locals := c.locals + [l]);
      (if |c1.locals| > c1.maxLocals then c1.(maxLocals := |c1.locals|) else c1, Some(slot))
  }

  /** Emits a jump with an empty offset; the offset sits at `|c.code| + 1`. */
  function EmitJump(c: CState, op: byte): CState { Emit(EmitOp(c, op, 0), 0) }

  function PatchJump(c: CState, pos: nat): CState
    requires pos + 2 <= |c.code|
  {
    var raw := |c.code| - pos - 2;
    if raw > 32767 || raw < -32768 then Fail(c)
    else
      var u := raw % 65536;
      c.(code := c.code[pos := u / 256][pos + 1 := u % 256])
  }

  // ----- compile_expr and compile_list -----

  function CompileExpr(ct: Builtins, c: CState, a: Ast): (r: CState)
    ensures |c.code| <= |r.code|
    decreases a
  {
    if c.error then c
    else match a
      case Name(s) =>
        var slot := Find(c.locals, s);
        if slot.Some? then
          if slot.value < 256 then EmitOp(c, OP_LOADENV, slot.value) else Fail(c)
        else
          var (c1, idx) := AddConstant(c, a);
          EmitIndexed(c1, OP_RESOLVE, OP_RESOLVE_W, idx)
      case Lit(_) => LoadConstant(c, a)
      case List(es) =>
        if es == [] then LoadConstant(c, a) else CompileList(ct, c, es)
  }

  function CompileList(ct: Builtins, c: CState, es: seq<Ast>): (r: CState)
    requires es != []
    ensures |c.code| <= |r.code|
    decreases es, |es| + 1
  {
    match ShapeOf(ct, es)
    case ShDyn => EmitOp(LoadConstant(c, List(es)), OP_CALLD, 0)
    case ShLet => StoreLet(CompileExpr(ct, c, es[2]), es[1])
    case ShIf => CompileIf(ct, c, es)
    case ShDo => CompileSeq(ct, c, es, 1, 1)
    case ShTry => CompileTry(ct, c, es)
    case ShSelf =>
      if |es| - 1 > MAX_ARGS then Fail(c)
      else EmitOp(CompileAll(ct, c, es, 1), OP_CALLS, |es| - 1)
    case ShBuiltin(p) =>
      var c1 := LoadConstant(c, Lit(Builtin(p)));
      if |es| - 1 > MAX_ARGS then Fail(c1)
      else EmitBuiltinCall(CompileAll(ct, c1, es, 1), p, |es| - 1)
    case ShCall =>
      var c1 := CompileExpr(ct, c, es[0]);
      if |es| - 1 > MAX_ARGS then Fail(c1)
      else EmitOp(CompileAll(ct, c1, es, 1), OP_CALLF, |es| - 1)
  }

  function EmitBuiltinCall(c: CState, p: Prim, argc: byte): CState {
    if p.kind == Unary && argc == 1 then Emit(c, OP_CALL1)
    else if p.kind == Binary && argc == 2 then Emit(c, OP_CALL2)
    else if p.kind == Vary then EmitOp(c, OP_CALLN, argc)
    else EmitOp(c, OP_CALLF, argc)
  }

  /** The tail of `let`: keep the value on the stack and store a copy. Slots fit
      a byte because `AddLocal` stops at `MAX_LOCALS`. */
  function StoreLet(c: CState, target: Ast): CState {
    var c1 := Emit(c, OP_DUP);
    if !target.Name? then Fail(c1) else
    var slot := Find(c1.locals, target.s);
    var (c2, slot2) := if slot.Some? then (c1, slot) else AddLocal(c1, Some(target.s));
    if slot2.None? || slot2.value >= 256 then Fail(c2)
    else EmitOp(c2, OP_STOREENV, slot2.value)
  }

  function CompileIf(ct: Builtins, c: CState, es: seq<Ast>): (r: CState)
    requires |es| >= 3
    ensures |c.code| <= |r.code|
    decreases es, |es|
  {
    var c1 := CompileExpr(ct, c, es[1]);
    var c2 := EmitJump(c1, OP_JMPF);
    var c3 := CompileExpr(ct, c2, es[2]);
    var c4 := PatchJump(EmitJump(c3, OP_JMP), |c1.code| + 1);
    var c5 := if |es| >= 4 then CompileExpr(ct, c4, es[3]) else LoadConstant(c4, Lit(ZERO));
    PatchJump(c5, |c3.code| + 1)
  }

  function CompileTry(ct: Builtins, c: CState, es: seq<Ast>): (r: CState)
    requires |es| == 3
    ensures |c.code| <= |r.code|
    decreases es, |es|
  {
    var (c0, slot) := AddLocal(c, None);
    if slot.None? || slot.value >= 256 then Fail(c0) else
    var c1 := EmitJump(c0, OP_TRAP);
    var c2 := Emit(CompileExpr(ct, c1, es[1]), OP_TRAP_END);
    var c3 := PatchJump(EmitJump(c2, OP_JMP), |c0.code| + 1);
    var c4 := EmitOp(c3, OP_STOREENV, slot.value);
    var c5 := CompileExpr(ct, c4, es[2]);
    var c6 := EmitOp(EmitOp(c5, OP_LOADENV, slot.value), OP_CALLF, 1);
    PatchJump(c6, |c2.code| + 1)
  }

  /** The arguments `es[i..]`, left to right. */
  function CompileAll(ct: Builtins, c: CState, es: seq<Ast>, i: nat): (r: CState)
    requires i <= |es|
    ensures |c.code| <= |r.code|
    decreases es, |es| - i
  {
    if i == |es| then c else CompileAll(ct, CompileExpr(ct, c, es[i]), es, i + 1)
  }

  /** A sequence whose values are dropped except the last; `lo` is its first index. */
  function CompileSeq(ct: Builtins, c: CState, es: seq<Ast>, lo: nat, i: nat): (r: CState)
    requires lo <= i <= |es|
    ensures |c.code| <= |r.code|
    decreases es, |es| - i
  {
    if i == |es| then c
    else
      var c1 := if i > lo then Emit(c, OP_POP) else c;
      CompileSeq(ct, CompileExpr(ct, c1, es[i]), es, lo, i + 1)
  }

  const START := CState([], [], [], 0, false)

  function AddParams(c: CState, params: seq<Sym>): (r: CState)
    ensures r.code == c.code
    decreases |params|
  {
    if params == [] then c
    else
      var (c1, slot) := AddLocal(c, Some(params[0]));
      if slot.None? then Fail(c1) else AddParams(c1, params[1..])
  }

  function CompileBody(ct: Builtins, params: seq<Sym>, body: seq<Ast>): CState {
    Emit(CompileSeq(ct, AddParams(START, params), body, 0, 0), OP_RET)
  }

  /** What a compiled lambda carries. */
  datatype Code = Code(code: seq<byte>, consts: seq<Ast>, nLocals: nat)

  /** The bytecode of a lambda, or `None` when the compiler gives up on it or its
      constants outgrow a sixteen-bit index. */
  function CodeOf(ct: Builtins, fn: Value): Option<Code> {
    if fn.Lam? then
      var c := CompileBody(ct, fn.params, fn.body);
      if c.error || |c.consts| > MAX_POOL then None else Some(Code(c.code, c.consts, c.maxLocals))
    else None
  }
}
