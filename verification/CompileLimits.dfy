/** Which lambdas get bytecode: how the compiler's limits show in a form, and that nothing
    else makes it give up on a lambda of moderate size. */
module CompileLimits {
  import opened Bytes
  import opened Options
  import opened Lang
  import opened Bytecode
  import opened CompileFacts

  /** Every call in the form has at most 64 arguments, and every `let` binds a name. */
  ghost predicate Encodable(ct: Builtins, a: Ast)
    decreases a
  {
    a.List? && a.elems != [] ==>
      var es := a.elems;
      match ShapeOf(ct, es)
      case ShDyn => true
      case ShLet => es[1].Name? && Encodable(ct, es[2])
      case ShIf => Encodable(ct, es[1]) && Encodable(ct, es[2]) && (|es| >= 4 ==> Encodable(ct, es[3]))
      case ShDo => AllEncodable(ct, es, 1)
      case ShTry => Encodable(ct, es[1]) && Encodable(ct, es[2])
      case ShSelf => |es| <= 65 && AllEncodable(ct, es, 1)
      case ShBuiltin(_) => |es| <= 65 && AllEncodable(ct, es, 1)
      case ShCall => |es| <= 65 && AllEncodable(ct, es, 0)
  }

  ghost predicate AllEncodable(ct: Builtins, es: seq<Ast>, i: nat)
    requires i <= |es|
    decreases es, |es| - i
  {
    i < |es| ==> Encodable(ct, es[i]) && AllEncodable(ct, es, i + 1)
  }

  // ----- a compiled form is one -----

  lemma {:induction false} CompiledEncodable(ct: Builtins, c: CState, a: Ast)
    requires !CompileExpr(ct, c, a).error
    ensures Encodable(ct, a)
    decreases a
  {
    hide CompileList, ScopeAfter;
    ExprDeclares(ct, c, a);
    if a.List? && a.elems != [] { ListEncodable(ct, c, a.elems); }
  }

  lemma {:induction false} ListEncodable(ct: Builtins, c: CState, es: seq<Ast>)
    requires es != [] && !c.error && !CompileList(ct, c, es).error
    ensures Encodable(ct, List(es))
    decreases es, |es| + 1
  {
    hide CompileExpr, CompileAll, CompileSeq, CompileIf, CompileTry, ScopeAfter, ScopeAfterAll, LoadConstant,
         AllEncodable;
    match ShapeOf(ct, es)
    case ShDyn =>
    case ShLet =>
      StoreLetDeclares(0, CompileExpr(ct, c, es[2]), es[1]);
      CompiledEncodable(ct, c, es[2]);
    case ShIf => IfEncodable(ct, c, es);
    case ShDo => SeqEncodable(ct, c, es, 1, 1);
    case ShTry => TryEncodable(ct, c, es);
    case ShSelf => ArgsEncodable(ct, c, es, 1);
    case ShBuiltin(p) => ArgsEncodable(ct, LoadConstant(c, Lit(Builtin(p))), es, 1);
    case ShCall =>
      var c1 := CompileExpr(ct, c, es[0]);
      ArgsEncodable(ct, c1, es, 1);
      AllDeclares(ct, c1, es, 1);
      CompiledEncodable(ct, c, es[0]);
      assert AllEncodable(ct, es, 0) by { FirstEncodable(ct, es, 0); }
  }

  lemma FirstEncodable(ct: Builtins, es: seq<Ast>, i: nat)
    requires i < |es| && Encodable(ct, es[i]) && AllEncodable(ct, es, i + 1)
    ensures AllEncodable(ct, es, i)
  {
  }

  lemma {:induction false} ArgsEncodable(ct: Builtins, c: CState, es: seq<Ast>, i: nat)
    requires i <= |es| && !CompileAll(ct, c, es, i).error
    ensures AllEncodable(ct, es, i)
    decreases es, |es| - i
  {
    hide CompileExpr, ScopeAfter;
    if i < |es| {
      var c1 := CompileExpr(ct, c, es[i]);
      AllDeclares(ct, c1, es, i + 1);
      CompiledEncodable(ct, c, es[i]);
      ArgsEncodable(ct, c1, es, i + 1);
    }
  }

  lemma {:induction false} SeqEncodable(ct: Builtins, c: CState, es: seq<Ast>, lo: nat, i: nat)
    requires lo <= i <= |es| && !CompileSeq(ct, c, es, lo, i).error
    ensures AllEncodable(ct, es, i)
    decreases es, |es| - i
  {
    hide CompileExpr, ScopeAfter;
    if i < |es| {
      var c1 := CompileExpr(ct, if i > lo then Emit(c, OP_POP) else c, es[i]);
      SeqDeclares(ct, c1, es, lo, i + 1);
      CompiledEncodable(ct, if i > lo then Emit(c, OP_POP) else c, es[i]);
      SeqEncodable(ct, c1, es, lo, i + 1);
    }
  }

  lemma {:induction false} IfEncodable(ct: Builtins, c: CState, es: seq<Ast>)
    requires |es| >= 3 && !CompileIf(ct, c, es).error
    ensures Encodable(ct, es[1]) && Encodable(ct, es[2]) && (|es| >= 4 ==> Encodable(ct, es[3]))
    decreases es, |es|
  {
    hide CompileExpr, ScopeAfter;
    var c1 := CompileExpr(ct, c, es[1]);
    var c2 := EmitJump(c1, OP_JMPF);
    var c3 := CompileExpr(ct, c2, es[2]);
    var c4 := PatchJump(EmitJump(c3, OP_JMP), |c1.code| + 1);
    if |es| >= 4 { CompiledEncodable(ct, c4, es[3]); ExprDeclares(ct, c4, es[3]); }
    CompiledEncodable(ct, c2, es[2]);
    ExprDeclares(ct, c2, es[2]);
    CompiledEncodable(ct, c, es[1]);
  }

  lemma {:induction false} TryEncodable(ct: Builtins, c: CState, es: seq<Ast>)
    requires |es| == 3 && !CompileTry(ct, c, es).error
    ensures Encodable(ct, es[1]) && Encodable(ct, es[2])
    decreases es, |es|
  {
    hide CompileExpr, ScopeAfter;
    var (c0, slot) := AddLocal(c, None);
    var c1 := EmitJump(c0, OP_TRAP);
    var b := CompileExpr(ct, c1, es[1]);
    var c3 := PatchJump(EmitJump(Emit(b, OP_TRAP_END), OP_JMP), |c0.code| + 1);
    var c4 := EmitOp(c3, OP_STOREENV, slot.value);
    CompiledEncodable(ct, c4, es[2]);
    ExprDeclares(ct, c4, es[2]);
    CompiledEncodable(ct, c1, es[1]);
  }

  // ----- a form of moderate size compiles -----

  /** More than the bytes a form takes. */
  ghost function Weight(a: Ast): nat {
    if a.List? && a.elems != [] then 16 + Weights(a.elems, 0) else 3
  }

  ghost function Weights(es: seq<Ast>, i: nat): nat
    requires i <= |es|
    decreases es, |es| - i
  {
    if i == |es| then 0 else Weight(es[i]) + 1 + Weights(es, i + 1)
  }

  /** `r` comes from `c` by at most `n` bytes, and by no more constants than bytes. */
  ghost predicate Within(c: CState, r: CState, n: nat) {
    !r.error && |c.code| <= |r.code| <= |c.code| + n && |r.consts| + |c.code| <= |c.consts| + |r.code|
  }

  lemma ConstantWithin(c: CState, v: Ast)
    requires !c.error
    ensures Within(c, LoadConstant(c, v), 3)
  {
  }

  lemma {:induction false} ExprWithin(ct: Builtins, c: CState, a: Ast)
    requires !c.error && Encodable(ct, a) && |ScopeAfter(ct, c.locals, a)| <= MAX_LOCALS && Weight(a) <= 32767
    ensures Within(c, CompileExpr(ct, c, a), Weight(a))
    decreases a
  {
    hide CompileList, ScopeAfterList, Encodable;
    match a
    case Name(s) =>
    case Lit(_) => ConstantWithin(c, a);
    case List(es) =>
      if es == [] { ConstantWithin(c, a); } else { ListWithin(ct, c, es); }
  }

  lemma {:induction false} ListWithin(ct: Builtins, c: CState, es: seq<Ast>)
    requires es != [] && !c.error && Encodable(ct, List(es)) && |ScopeAfterList(ct, c.locals, es)| <= MAX_LOCALS
    requires 16 + Weights(es, 0) <= 32767
    ensures Within(c, CompileList(ct, c, es), 16 + Weights(es, 0))
    decreases es, |es| + 1
  {
    hide CompileExpr, CompileAll, CompileSeq, CompileIf, CompileTry, ScopeAfter, ScopeAfterAll, LoadConstant,
         AllEncodable,
         StoreLet, Weight;
    match ShapeOf(ct, es)
    case ShDyn => ConstantWithin(c, List(es));
    case ShLet =>
      WeightsThree(es);
      ExprWithin(ct, c, es[2]);
      ExprDeclares(ct, c, es[2]);
      StoreWithin(CompileExpr(ct, c, es[2]), es[1].s);
    case ShIf => IfWithin(ct, c, es);
    case ShDo => SeqWithin(ct, c, es, 1, 1);
    case ShTry => TryWithin(ct, c, es);
    case ShSelf => AllWithin(ct, c, es, 1);
    case ShBuiltin(p) => BuiltinWithin(ct, c, es, p);
    case ShCall => CallWithin(ct, c, es);
  }

  lemma {:induction false} BuiltinWithin(ct: Builtins, c: CState, es: seq<Ast>, p: Prim)
    requires es != [] && !c.error && Encodable(ct, List(es)) && ShapeOf(ct, es) == ShBuiltin(p)
    requires |ScopeAfterList(ct, c.locals, es)| <= MAX_LOCALS && 16 + Weights(es, 0) <= 32767
    ensures Within(c, CompileList(ct, c, es), 16 + Weights(es, 0))
    decreases es, |es|
  {
    hide CompileAll, ScopeAfterAll, LoadConstant, AllEncodable, Weight;
    ConstantWithin(c, Lit(Builtin(p)));
    LoadConstantKeeps(|c.code|, c, Lit(Builtin(p)));
    AllWithin(ct, LoadConstant(c, Lit(Builtin(p))), es, 1);
  }

  lemma {:induction false} CallWithin(ct: Builtins, c: CState, es: seq<Ast>)
    requires es != [] && !c.error && Encodable(ct, List(es)) && ShapeOf(ct, es) == ShCall
    requires |ScopeAfterList(ct, c.locals, es)| <= MAX_LOCALS && 16 + Weights(es, 0) <= 32767
    ensures Within(c, CompileList(ct, c, es), 16 + Weights(es, 0))
    decreases es, |es|
  {
    hide CompileExpr, CompileAll, ScopeAfter, ScopeAfterList, ScopeAfterAll, AllEncodable, Weight;
    HeadEncodable(ct, es);
    HeadScope(ct, c.locals, es);
    ExprWithin(ct, c, es[0]);
    ExprDeclares(ct, c, es[0]);
    AllWithin(ct, CompileExpr(ct, c, es[0]), es, 1);
  }

  lemma HeadEncodable(ct: Builtins, es: seq<Ast>)
    requires es != [] && AllEncodable(ct, es, 0)
    ensures Encodable(ct, es[0]) && AllEncodable(ct, es, 1)
  {
  }

  lemma HeadScope(ct: Builtins, scope: Scope, es: seq<Ast>)
    requires es != [] && ShapeOf(ct, es) == ShCall
    ensures |ScopeAfter(ct, scope, es[0])| <= |ScopeAfterList(ct, scope, es)|
    ensures ScopeAfterList(ct, scope, es) == ScopeAfterAll(ct, ScopeAfter(ct, scope, es[0]), es, 1)
  {
  }

  lemma WeightsThree(es: seq<Ast>)
    requires |es| >= 3
    ensures Weights(es, 0) >= Weight(es[1]) + Weight(es[2]) + 2
    ensures |es| >= 4 ==> Weights(es, 0) >= Weight(es[1]) + Weight(es[2]) + Weight(es[3]) + 3
  {
    assert Weights(es, 1) == Weight(es[1]) + 1 + Weights(es, 2);
    assert Weights(es, 2) == Weight(es[2]) + 1 + Weights(es, 3);
  }

  lemma StoreWithin(c: CState, s: Sym)
    requires !c.error && |Declare(c.locals, s)| <= MAX_LOCALS
    ensures Within(c, StoreLet(c, Name(s)), 3)
  {
  }

  lemma {:induction false} AllWithin(ct: Builtins, c: CState, es: seq<Ast>, i: nat)
    requires i <= |es| && !c.error && AllEncodable(ct, es, i) && |ScopeAfterAll(ct, c.locals, es, i)| <= MAX_LOCALS
    requires Weights(es, i) <= 32767
    ensures Within(c, CompileAll(ct, c, es, i), Weights(es, i))
    decreases es, |es| - i
  {
    hide CompileExpr, ScopeAfter, Encodable, Weight;
    if i < |es| {
      ExprWithin(ct, c, es[i]);
      ExprDeclares(ct, c, es[i]);
      AllWithin(ct, CompileExpr(ct, c, es[i]), es, i + 1);
    }
  }

  lemma {:induction false} SeqWithin(ct: Builtins, c: CState, es: seq<Ast>, lo: nat, i: nat)
    requires lo <= i <= |es| && !c.error && AllEncodable(ct, es, i)
    requires |ScopeAfterAll(ct, c.locals, es, i)| <= MAX_LOCALS && Weights(es, i) <= 32767
    ensures Within(c, CompileSeq(ct, c, es, lo, i), Weights(es, i))
    decreases es, |es| - i
  {
    hide CompileExpr, ScopeAfter, Encodable, Weight;
    if i < |es| {
      var c1 := if i > lo then Emit(c, OP_POP) else c;
      ExprWithin(ct, c1, es[i]);
      ExprDeclares(ct, c1, es[i]);
      SeqWithin(ct, CompileExpr(ct, c1, es[i]), es, lo, i + 1);
    }
  }

  lemma PatchWithin(c: CState, pos: nat)
    requires !c.error && pos + 2 <= |c.code| <= pos + 2 + 32767
    ensures !PatchJump(c, pos).error && |PatchJump(c, pos).code| == |c.code|
    ensures PatchJump(c, pos).consts == c.consts && PatchJump(c, pos).locals == c.locals
  {
  }

  lemma IfScopes(ct: Builtins, scope: Scope, es: seq<Ast>)
    requires |es| >= 3 && ShapeOf(ct, es) == ShIf
    ensures var s1 := ScopeAfter(ct, scope, es[1]);
            var s2 := ScopeAfter(ct, s1, es[2]);
            && |s1| <= |s2| <= |ScopeAfterList(ct, scope, es)|
            && (|es| >= 4 ==> ScopeAfterList(ct, scope, es) == ScopeAfter(ct, s2, es[3]))
  {
  }

  lemma {:induction false} IfWithin(ct: Builtins, c: CState, es: seq<Ast>)
    requires |es| >= 3 && ShapeOf(ct, es) == ShIf && !c.error && Encodable(ct, List(es))
    requires |ScopeAfterList(ct, c.locals, es)| <= MAX_LOCALS && 16 + Weights(es, 0) <= 32767
    ensures Within(c, CompileIf(ct, c, es), 16 + Weights(es, 0))
    decreases es, |es|
  {
    hide CompileExpr, ScopeAfter, ScopeAfterList, LoadConstant, PatchJump, Weight, Weights;
    WeightsThree(es);
    IfScopes(ct, c.locals, es);
    var c1 := CompileExpr(ct, c, es[1]);
    ExprWithin(ct, c, es[1]);
    ExprDeclares(ct, c, es[1]);
    var c2 := EmitJump(c1, OP_JMPF);
    var c3 := CompileExpr(ct, c2, es[2]);
    ExprWithin(ct, c2, es[2]);
    ExprDeclares(ct, c2, es[2]);
    var j := EmitJump(c3, OP_JMP);
    PatchWithin(j, |c1.code| + 1);
    var c4 := PatchJump(j, |c1.code| + 1);
    if |es| >= 4 { ExprWithin(ct, c4, es[3]); } else { ConstantWithin(c4, Lit(ZERO)); }
    PatchWithin(if |es| >= 4 then CompileExpr(ct, c4, es[3]) else LoadConstant(c4, Lit(ZERO)), |c3.code| + 1);
  }

  lemma TryScopes(ct: Builtins, scope: Scope, es: seq<Ast>)
    requires |es| == 3 && ShapeOf(ct, es) == ShTry
    ensures var s1 := ScopeAfter(ct, scope + [None], es[1]);
            |scope| + 1 <= |s1| <= |ScopeAfter(ct, s1, es[2])| == |ScopeAfterList(ct, scope, es)|
  {
  }

  lemma {:induction false} TryWithin(ct: Builtins, c: CState, es: seq<Ast>)
    requires |es| == 3 && ShapeOf(ct, es) == ShTry && !c.error && Encodable(ct, List(es))
    requires |ScopeAfterList(ct, c.locals, es)| <= MAX_LOCALS && 16 + Weights(es, 0) <= 32767
    ensures Within(c, CompileTry(ct, c, es), 16 + Weights(es, 0))
    decreases es, |es|
  {
    hide CompileExpr, ScopeAfter, ScopeAfterList, PatchJump, Weight, Weights;
    WeightsThree(es);
    TryScopes(ct, c.locals, es);
    var (c0, slot) := AddLocal(c, None);
    var c1 := EmitJump(c0, OP_TRAP);
    var b := CompileExpr(ct, c1, es[1]);
    ExprWithin(ct, c1, es[1]);
    ExprDeclares(ct, c1, es[1]);
    var c2 := Emit(b, OP_TRAP_END);
    var j := EmitJump(c2, OP_JMP);
    PatchWithin(j, |c0.code| + 1);
    var c4 := EmitOp(PatchJump(j, |c0.code| + 1), OP_STOREENV, slot.value);
    ExprWithin(ct, c4, es[2]);
    var c6 := EmitOp(EmitOp(CompileExpr(ct, c4, es[2]), OP_LOADENV, slot.value), OP_CALLF, 1);
    PatchWithin(c6, |c2.code| + 1);
  }

  lemma {:induction false} ParamsWithin(c: CState, params: seq<Sym>)
    requires !c.error && |c.locals| + |params| <= MAX_LOCALS
    ensures !AddParams(c, params).error
    decreases |params|
  {
    if params != [] { ParamsWithin(AddLocal(c, Some(params[0])).0, params[1..]); }
  }

  /** A lambda of moderate size has bytecode if and only if its calls have at most 64
      arguments each, its `let`s bind names, and it needs at most 256 slots. */
  lemma CompilesExactly(ct: Builtins, params: seq<Sym>, body: seq<Ast>)
    requires Weights(body, 0) <= 32767
    ensures CodeOf(ct, Lam(params, body)).Some? <==>
              AllEncodable(ct, body, 0) && |ScopeAfterAll(ct, ParamScope(params), body, 0)| <= 256
  {
    hide CompileSeq, ScopeAfterAll, AllEncodable, AddParams;
    var fn := Lam(params, body);
    var c := AddParams(START, params);
    ParamsDeclare(START, params);
    assert START.locals + ParamScope(params) == ParamScope(params);
    SeqDeclares(ct, c, body, 0, 0);
    if CodeOf(ct, fn).Some? {
      FrameSize(ct, fn);
      SeqEncodable(ct, c, body, 0, 0);
    } else if AllEncodable(ct, body, 0) && |ScopeAfterAll(ct, ParamScope(params), body, 0)| <= 256 {
      ParamsWithin(START, params);
      SeqWithin(ct, c, body, 0, 0);
    }
  }
}
