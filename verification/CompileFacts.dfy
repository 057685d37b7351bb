/** What compiling a form does to the compiler's state: code and constants only
    grow, errors are sticky, and the slots declared are those of `ScopeAfter`. */
module CompileFacts {
  import opened Bytes
  import opened Options
  import opened Lang
  import opened Bytecode

  ghost predicate Tight(c: CState) { c.maxLocals == |c.locals| }

  /** Constants that may stand for each other: numbers, truth values, names and symbols,
      builtins, the null, and an object by its address. */
  predicate Shareable(a: Ast) {
    a.Name? || (a.Lit? && (a.v.I64? || a.v.F64? || a.v.Bool? || a.v.SymLit? || a.v.Obj? || a.v.Null? || a.v.Builtin?))
  }

  /** No such constant is in the pool twice. */
  ghost predicate Distinct(consts: seq<Ast>) {
    forall i, j :: 0 <= i < j < |consts| && Shareable(consts[i]) ==> consts[i] != consts[j]
  }

  lemma {:induction false} NotFound(consts: seq<Ast>, v: Ast, i: nat)
    requires i <= |consts| && FindConstant(consts, v, i) == |consts| && Shareable(v)
    ensures v !in consts[i..]
    decreases |consts| - i
  {
    if i < |consts| {
      NotFound(consts, v, i + 1);
      assert consts[i..] == [consts[i]] + consts[i + 1..];
    }
  }

  /** A constant is added only if the pool has none it may share. */
  lemma ConstantAdded(c: CState, v: Ast)
    ensures var r := AddConstant(c, v).0;
            && c.consts <= r.consts && |r.consts| <= |c.consts| + 1
            && (Distinct(c.consts) ==> Distinct(r.consts))
            && (Shareable(v) && v in c.consts ==> r == c)
  {
    if Shareable(v) && FindConstant(c.consts, v, 0) == |c.consts| {
      NotFound(c.consts, v, 0);
      assert c.consts[0..] == c.consts;
    }
  }

  /** `r` comes from `c` without touching the first `n` bytes of code. */
  ghost predicate Keeps(n: nat, c: CState, r: CState) {
    && n <= |c.code| && n <= |r.code|
    && r.code[..n] == c.code[..n]
    && c.consts <= r.consts
    && (Distinct(c.consts) ==> Distinct(r.consts))
    && (c.error ==> r.error)
    && (Tight(c) ==> Tight(r))
    && (|c.locals| <= MAX_LOCALS ==> |r.locals| <= MAX_LOCALS)
  }

  lemma KeepsLess(n: nat, m: nat, a: CState, b: CState)
    requires n <= m && Keeps(m, a, b)
    ensures Keeps(n, a, b)
  {
    assert b.code[..n] == b.code[..m][..n] == a.code[..m][..n] == a.code[..n];
  }

  /** `r` comes from `c` by declaring exactly `after`, if it compiled at all. */
  ghost predicate Declared(c: CState, r: CState, after: Scope) {
    Keeps(|c.code|, c, r) && (!r.error ==> r.locals == after)
  }

  /** Same slots, first `n` bytes untouched: what emitting and patching do. */
  ghost predicate Emitted(n: nat, c: CState, r: CState) {
    Keeps(n, c, r) && r.locals == c.locals
  }

  lemma EmitKeeps(n: nat, c: CState, b: byte)
    requires n <= |c.code|
    ensures Emitted(n, c, Emit(c, b))
    ensures |Emit(c, b).code| == |c.code| + 1
  {
  }

  lemma EmitOpKeeps(n: nat, c: CState, op: byte, arg: byte)
    requires n <= |c.code|
    ensures Emitted(n, c, EmitOp(c, op, arg))
    ensures |EmitOp(c, op, arg).code| == |c.code| + 2
  {
  }

  lemma EmitJumpKeeps(n: nat, c: CState, op: byte)
    requires n <= |c.code|
    ensures Emitted(n, c, EmitJump(c, op))
    ensures |EmitJump(c, op).code| == |c.code| + 3
  {
  }

  lemma PatchKeeps(n: nat, c: CState, pos: nat)
    requires n <= pos && pos + 2 <= |c.code|
    ensures Emitted(n, c, PatchJump(c, pos))
    ensures |PatchJump(c, pos).code| == |c.code|
  {
  }

  lemma LoadConstantKeeps(n: nat, c: CState, v: Ast)
    requires n <= |c.code|
    ensures Emitted(n, c, LoadConstant(c, v))
  {
    hide FindConstant, Distinct, Shareable;
    ConstantAdded(c, v);
  }

  lemma {:induction false} ExprDeclares(ct: Builtins, c: CState, a: Ast)
    ensures Declared(c, CompileExpr(ct, c, a), ScopeAfter(ct, c.locals, a))
    decreases a
  {
    hide FindConstant, Distinct, Shareable;
    ConstantAdded(c, a);
    if !c.error && a.List? && a.elems != [] {
      ListDeclares(ct, c, a.elems);
    }
  }

  lemma {:induction false} ListDeclares(ct: Builtins, c: CState, es: seq<Ast>)
    requires es != []
    ensures Declared(c, CompileList(ct, c, es), ScopeAfterList(ct, c.locals, es))
    decreases es, |es| + 1
  {
    hide CompileExpr, ScopeAfter, CompileIf, CompileTry, CompileAll, CompileSeq, ScopeAfterAll, LoadConstant, EmitOp,
         Emit, StoreLet, Distinct;
    match ShapeOf(ct, es)
    case ShDyn =>
      LoadConstantKeeps(|c.code|, c, List(es));
      EmitOpKeeps(|c.code|, LoadConstant(c, List(es)), OP_CALLD, 0);
    case ShLet =>
      ExprDeclares(ct, c, es[2]);
      StoreLetDeclares(|c.code|, CompileExpr(ct, c, es[2]), es[1]);
    case ShIf => IfDeclares(ct, c, es);
    case ShDo => SeqDeclares(ct, c, es, 1, 1);
    case ShTry => TryDeclares(ct, c, es);
    case ShSelf =>
      AllDeclares(ct, c, es, 1);
      if |es| - 1 <= MAX_ARGS { EmitOpKeeps(|c.code|, CompileAll(ct, c, es, 1), OP_CALLS, |es| - 1); }
    case ShBuiltin(p) =>
      LoadConstantKeeps(|c.code|, c, Lit(Builtin(p)));
      ArgsDeclare(ct, |c.code|, LoadConstant(c, Lit(Builtin(p))), es);
    case ShCall =>
      ExprDeclares(ct, c, es[0]);
      ArgsDeclare(ct, |c.code|, CompileExpr(ct, c, es[0]), es);
  }

  lemma StoreLetDeclares(n: nat, c: CState, target: Ast)
    requires n <= |c.code|
    ensures Keeps(n, c, StoreLet(c, target))
    ensures !StoreLet(c, target).error && target.Name? ==> StoreLet(c, target).locals == Declare(c.locals, target.s)
    ensures !target.Name? ==> StoreLet(c, target).error
  {
  }

  /** Arguments and any of the call instructions that may follow them. */
  lemma {:induction false} ArgsDeclare(ct: Builtins, n: nat, c: CState, es: seq<Ast>)
    requires es != [] && n <= |c.code|
    ensures Keeps(n, c, CompileAll(ct, c, es, 1))
    ensures !CompileAll(ct, c, es, 1).error ==> CompileAll(ct, c, es, 1).locals == ScopeAfterAll(ct, c.locals, es, 1)
    ensures forall op: byte, arg: byte {:trigger EmitOp(CompileAll(ct, c, es, 1), op, arg)} ::
              Emitted(n, CompileAll(ct, c, es, 1), EmitOp(CompileAll(ct, c, es, 1), op, arg))
    ensures forall op: byte {:trigger Emit(CompileAll(ct, c, es, 1), op)} ::
              Emitted(n, CompileAll(ct, c, es, 1), Emit(CompileAll(ct, c, es, 1), op))
    decreases es, |es|
  {
    AllDeclares(ct, c, es, 1);
    KeepsLess(n, |c.code|, c, CompileAll(ct, c, es, 1));
    forall op: byte, arg: byte
      ensures Emitted(n, CompileAll(ct, c, es, 1), EmitOp(CompileAll(ct, c, es, 1), op, arg))
    {
      EmitOpKeeps(n, CompileAll(ct, c, es, 1), op, arg);
    }
    forall op: byte
      ensures Emitted(n, CompileAll(ct, c, es, 1), Emit(CompileAll(ct, c, es, 1), op))
    {
      EmitKeeps(n, CompileAll(ct, c, es, 1), op);
    }
  }

  lemma {:induction false} IfDeclares(ct: Builtins, c: CState, es: seq<Ast>)
    requires |es| >= 3 && ShapeOf(ct, es) == ShIf
    ensures Declared(c, CompileIf(ct, c, es), ScopeAfterList(ct, c.locals, es))
    decreases es, |es|
  {
    hide CompileExpr, ScopeAfter, EmitJump, PatchJump, LoadConstant, Distinct;
    var n := |c.code|;
    var c1 := CompileExpr(ct, c, es[1]);
    var c2 := EmitJump(c1, OP_JMPF);
    var c3 := CompileExpr(ct, c2, es[2]);
    var j := EmitJump(c3, OP_JMP);
    ExprDeclares(ct, c, es[1]);
    EmitJumpKeeps(n, c1, OP_JMPF);
    ExprDeclares(ct, c2, es[2]);
    KeepsLess(n, |c2.code|, c2, c3);
    EmitJumpKeeps(n, c3, OP_JMP);
    PatchKeeps(n, j, |c1.code| + 1);
    var c4 := PatchJump(j, |c1.code| + 1);
    ElseDeclares(ct, n, c4, es);
    PatchKeeps(n, Else(ct, c4, es), |c3.code| + 1);
  }

  /** The second arm, or a zero. */
  function Else(ct: Builtins, c: CState, es: seq<Ast>): CState {
    if |es| >= 4 then CompileExpr(ct, c, es[3]) else LoadConstant(c, Lit(ZERO))
  }

  lemma {:induction false} ElseDeclares(ct: Builtins, n: nat, c: CState, es: seq<Ast>)
    requires |es| >= 3 && n <= |c.code|
    ensures |c.code| <= |Else(ct, c, es).code| && Keeps(n, c, Else(ct, c, es))
    ensures !Else(ct, c, es).error ==>
              Else(ct, c, es).locals == if |es| >= 4 then ScopeAfter(ct, c.locals, es[3]) else c.locals
    decreases es, |es|, 0
  {
    hide CompileExpr, ScopeAfter, LoadConstant, Distinct;
    if |es| >= 4 { ExprDeclares(ct, c, es[3]); } else { LoadConstantKeeps(|c.code|, c, Lit(ZERO)); }
    KeepsLess(n, |c.code|, c, Else(ct, c, es));
  }

  lemma {:induction false} TryDeclares(ct: Builtins, c: CState, es: seq<Ast>)
    requires |es| == 3 && ShapeOf(ct, es) == ShTry
    ensures Declared(c, CompileTry(ct, c, es), ScopeAfterList(ct, c.locals, es))
    decreases es, |es|
  {
    hide CompileExpr, ScopeAfter, EmitJump, EmitOp, Emit, PatchJump, Distinct;
    var n := |c.code|;
    var (c0, slot) := AddLocal(c, None);
    if slot.Some? && slot.value < 256 {
      var c1 := EmitJump(c0, OP_TRAP);
      EmitJumpKeeps(n, c0, OP_TRAP);
      var b := CompileExpr(ct, c1, es[1]);
      ExprDeclares(ct, c1, es[1]);
      KeepsLess(n, |c1.code|, c1, b);
      var c2 := Emit(b, OP_TRAP_END);
      EmitKeeps(n, b, OP_TRAP_END);
      var j := EmitJump(c2, OP_JMP);
      EmitJumpKeeps(n, c2, OP_JMP);
      PatchKeeps(n, j, |c0.code| + 1);
      var c3 := PatchJump(j, |c0.code| + 1);
      var c4 := EmitOp(c3, OP_STOREENV, slot.value);
      EmitOpKeeps(n, c3, OP_STOREENV, slot.value);
      var c5 := CompileExpr(ct, c4, es[2]);
      ExprDeclares(ct, c4, es[2]);
      KeepsLess(n, |c4.code|, c4, c5);
      EmitOpKeeps(n, c5, OP_LOADENV, slot.value);
      EmitOpKeeps(n, EmitOp(c5, OP_LOADENV, slot.value), OP_CALLF, 1);
      PatchKeeps(n, EmitOp(EmitOp(c5, OP_LOADENV, slot.value), OP_CALLF, 1), |c2.code| + 1);
    }
  }

  lemma {:induction false} AllDeclares(ct: Builtins, c: CState, es: seq<Ast>, i: nat)
    requires i <= |es|
    ensures Declared(c, CompileAll(ct, c, es, i), ScopeAfterAll(ct, c.locals, es, i))
    decreases es, |es| - i
  {
    if i < |es| {
      var c1 := CompileExpr(ct, c, es[i]);
      ExprDeclares(ct, c, es[i]);
      AllDeclares(ct, c1, es, i + 1);
      KeepsLess(|c.code|, |c1.code|, c1, CompileAll(ct, c1, es, i + 1));
    }
  }

  lemma {:induction false} SeqDeclares(ct: Builtins, c: CState, es: seq<Ast>, lo: nat, i: nat)
    requires lo <= i <= |es|
    ensures Declared(c, CompileSeq(ct, c, es, lo, i), ScopeAfterAll(ct, c.locals, es, i))
    decreases es, |es| - i
  {
    if i < |es| {
      var c1 := if i > lo then Emit(c, OP_POP) else c;
      var c2 := CompileExpr(ct, c1, es[i]);
      ExprDeclares(ct, c1, es[i]);
      SeqDeclares(ct, c2, es, lo, i + 1);
      KeepsLess(|c.code|, |c1.code|, c1, c2);
      KeepsLess(|c.code|, |c2.code|, c2, CompileSeq(ct, c2, es, lo, i + 1));
    }
  }

  lemma {:induction false} ParamsDeclare(c: CState, params: seq<Sym>)
    ensures Declared(c, AddParams(c, params), c.locals + ParamScope(params))
    ensures !AddParams(c, params).error ==> AddParams(c, params).consts == c.consts
    decreases |params|
  {
    if params == [] {
      assert ParamScope(params) == [];
    } else {
      var (c1, slot) := AddLocal(c, Some(params[0]));
      if slot.Some? {
        ParamsDeclare(c1, params[1..]);
        assert ParamScope(params) == [Some(params[0])] + ParamScope(params[1..]);
      }
    }
  }

  /** A compiled lambda reserves exactly the slots its body declares. */
  lemma FrameSize(ct: Builtins, fn: Value)
    requires CodeOf(ct, fn).Some?
    ensures CodeOf(ct, fn).value.nLocals == |ScopeAfterAll(ct, ParamScope(fn.params), fn.body, 0)|
    ensures |fn.params| <= CodeOf(ct, fn).value.nLocals <= MAX_LOCALS
  {
    var c := AddParams(START, fn.params);
    ParamsDeclare(START, fn.params);
    SeqDeclares(ct, c, fn.body, 0, 0);
    assert START.locals + ParamScope(fn.params) == ParamScope(fn.params);
  }

  /** No constant that can be shared is twice in the pool of a compiled lambda. */
  lemma PoolDistinct(ct: Builtins, fn: Value)
    requires CodeOf(ct, fn).Some?
    ensures forall i, j :: 0 <= i < j < |CodeOf(ct, fn).value.consts| ==>
              var a, b := CodeOf(ct, fn).value.consts[i], CodeOf(ct, fn).value.consts[j];
              a == b ==> a.List? || (a.Lit? && (a.v.ErrObj? || a.v.Lam? || a.v.Form?))
  {
    var c := AddParams(START, fn.params);
    ParamsDeclare(START, fn.params);
    SeqDeclares(ct, c, fn.body, 0, 0);
    assert Distinct(CodeOf(ct, fn).value.consts);
  }
}
