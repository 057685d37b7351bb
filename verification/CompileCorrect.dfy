/** The compiler writes what the reader expects: every form is laid out at the
    position where its code begins, jumps included, in the finished bytecode. */
module CompileCorrect {
  import opened Bytes
  import opened Options
  import opened Lang
  import opened Bytecode
  import opened CompileFacts
  import opened Layout

  /** Bytecode `k` has the bytes [lo, hi) of `c` and all its constants: the finished
      code as seen from the moment `c` was the compiler's state. */
  ghost predicate Holds(k: Code, c: CState, lo: nat, hi: nat) {
    && c.consts <= k.consts
    && hi <= |k.code| && hi <= |c.code|
    && forall i :: lo <= i < hi ==> k.code[i] == c.code[i]
  }

  lemma HoldsEarlier(k: Code, c: CState, r: CState, n: nat, lo: nat, hi: nat)
    requires Holds(k, r, lo, hi) && Keeps(n, c, r) && hi <= n
    ensures Holds(k, c, lo, hi)
  {
    assert forall i :: 0 <= i < hi ==> r.code[i] == r.code[..n][i] && c.code[i] == c.code[..n][i];
  }

  lemma HoldsWithin(k: Code, c: CState, lo: nat, hi: nat, lo': nat, hi': nat)
    requires Holds(k, c, lo, hi) && lo <= lo' && hi' <= hi
    ensures Holds(k, c, lo', hi')
  {
  }

  /** An index is read back, in whichever form it was written. */
  lemma OperandReads(c: CState, narrow: byte, wide: byte, idx: nat, k: Code)
    requires narrow != wide && idx < 65536
    requires Holds(k, EmitIndexed(c, narrow, wide, idx), |c.code|, |EmitIndexed(c, narrow, wide, idx).code|)
    ensures Operand(k.code, |c.code|, narrow, wide) == Some((idx, |EmitIndexed(c, narrow, wide, idx).code|))
  {
  }

  lemma ConstantThere(c: CState, v: Ast)
    ensures var (c1, idx) := AddConstant(c, v);
            c1.code == c.code && idx < |c1.consts| && c1.consts[idx] == v
  {
  }

  lemma IndexedReads(c: CState, narrow: byte, wide: byte, v: Ast, k: Code)
    requires narrow != wide && |k.consts| <= MAX_POOL
    requires var (c1, idx) := AddConstant(c, v);
             Holds(k, EmitIndexed(c1, narrow, wide, idx), |c.code|, |EmitIndexed(c1, narrow, wide, idx).code|)
    ensures var (c1, idx) := AddConstant(c, v);
            Indexed(k, |c.code|, narrow, wide, v) == Some(|EmitIndexed(c1, narrow, wide, idx).code|)
  {
    hide AddConstant, Operand, Distinct;
    var (c1, idx) := AddConstant(c, v);
    ConstantThere(c, v);
    assert k.consts[idx] == c1.consts[idx];
    OperandReads(c1, narrow, wide, idx, k);
  }

  lemma LoadConstantReads(c: CState, v: Ast, k: Code)
    requires Holds(k, LoadConstant(c, v), |c.code|, |LoadConstant(c, v).code|) && |k.consts| <= MAX_POOL
    ensures Const(k, |c.code|, v) == Some(|LoadConstant(c, v).code|)
  {
    hide AddConstant, EmitIndexed, Indexed, Holds, Distinct;
    IndexedReads(c, OP_LOADCONST, OP_LOADCONST_W, v, k);
  }

  lemma {:induction false} ExprReads(ct: Builtins, c: CState, a: Ast, k: Code)
    requires !CompileExpr(ct, c, a).error && |k.consts| <= MAX_POOL
    requires Holds(k, CompileExpr(ct, c, a), |c.code|, |CompileExpr(ct, c, a).code|)
    ensures Reads(ct, k, c.locals, |c.code|, a) == Some(|CompileExpr(ct, c, a).code|)
    decreases a
  {
    hide CompileList, ReadsList, Holds, LoadConstant, Const, EmitIndexed, Find, Distinct;
    match a
    case Name(s) => NameReads(ct, c, s, k);
    case Lit(_) => LoadConstantReads(c, a, k);
    case List(es) => if es == [] { LoadConstantReads(c, a, k); } else { ListReads(ct, c, es, k); }
  }

  lemma NameReads(ct: Builtins, c: CState, s: Sym, k: Code)
    requires !CompileExpr(ct, c, Name(s)).error && |k.consts| <= MAX_POOL
    requires Holds(k, CompileExpr(ct, c, Name(s)), |c.code|, |CompileExpr(ct, c, Name(s)).code|)
    ensures Reads(ct, k, c.locals, |c.code|, Name(s)) == Some(|CompileExpr(ct, c, Name(s)).code|)
  {
    hide AddConstant, EmitIndexed, Indexed, Find, CompileList, ReadsList, Distinct;
    if Find(c.locals, s).None? { IndexedReads(c, OP_RESOLVE, OP_RESOLVE_W, Name(s), k); }
  }

  lemma {:induction false} ListReads(ct: Builtins, c: CState, es: seq<Ast>, k: Code)
    requires es != []
    requires !c.error && !CompileList(ct, c, es).error && |k.consts| <= MAX_POOL
    requires Holds(k, CompileList(ct, c, es), |c.code|, |CompileList(ct, c, es).code|)
    ensures ReadsList(ct, k, c.locals, |c.code|, es) == Some(|CompileList(ct, c, es).code|)
    decreases es, |es| + 1
  {
    hide CompileExpr, CompileIf, CompileTry, CompileAll, CompileSeq, LoadConstant, EmitOp, Distinct;
    hide Reads, ReadsAll, ReadsSeq, ReadsIf, ReadsTry, ScopeAfter, ScopeAfterAll, Holds, Const, Op1, Distinct;
    var n, r := |c.code|, CompileList(ct, c, es);
    match ShapeOf(ct, es)
    case ShDyn =>
      var c1 := LoadConstant(c, List(es));
      LoadConstantKeeps(n, c, List(es));
      OneMore(c1, OP_CALLD, 0, n, k);
      LoadConstantReads(c, List(es), k);
    case ShLet => LetReads(ct, c, es, k);
    case ShIf => IfReads(ct, c, es, k);
    case ShDo => SeqReads(ct, c, es, 1, 1, k);
    case ShTry => TryReads(ct, c, es, k);
    case ShSelf =>
      EmitOpKeeps(n, CompileAll(ct, c, es, 1), OP_CALLS, |es| - 1);
      OneMore(CompileAll(ct, c, es, 1), OP_CALLS, |es| - 1, n, k);
      AllReads(ct, c, es, 1, k);
    case ShBuiltin(p) => BuiltinReads(ct, c, es, p, k);
    case ShCall => CallReads(ct, c, es, k);
  }

  /** Splits off a final two-byte instruction. */
  lemma OneMore(c: CState, op: byte, arg: byte, lo: nat, k: Code)
    requires lo <= |c.code| && Holds(k, EmitOp(c, op, arg), lo, |EmitOp(c, op, arg).code|)
    ensures |EmitOp(c, op, arg).code| == |c.code| + 2
    ensures Holds(k, c, lo, |c.code|)
    ensures Op1(k, |c.code|, op, arg) == Some(|c.code| + 2)
  {
  }

  lemma StoreLetReads(c: CState, target: Ast, lo: nat, k: Code)
    requires target.Name? && !StoreLet(c, target).error && lo <= |c.code|
    requires Holds(k, StoreLet(c, target), lo, |StoreLet(c, target).code|)
    ensures Holds(k, c, lo, |c.code|)
    ensures Find(Declare(c.locals, target.s), target.s).Some?
    ensures var slot := Find(Declare(c.locals, target.s), target.s).value;
            Op(k, |c.code|, OP_DUP) == Some(|c.code| + 1) &&
            Op1(k, |c.code| + 1, OP_STOREENV, slot) == Some(|StoreLet(c, target).code|)
  {
    if Find(c.locals, target.s).None? {
      assert (c.locals + [Some(target.s)])[|c.locals|] == Some(target.s);
    }
  }

  lemma {:induction false} LetReads(ct: Builtins, c: CState, es: seq<Ast>, k: Code)
    requires |es| == 3 && ShapeOf(ct, es) == ShLet
    requires !c.error && !CompileList(ct, c, es).error && |k.consts| <= MAX_POOL
    requires Holds(k, CompileList(ct, c, es), |c.code|, |CompileList(ct, c, es).code|)
    ensures ReadsList(ct, k, c.locals, |c.code|, es) == Some(|CompileList(ct, c, es).code|)
    decreases es, |es|
  {
    hide CompileExpr, Reads, ScopeAfter, StoreLet, Op, Op1, Holds, Distinct;
    var c1 := CompileExpr(ct, c, es[2]);
    ExprDeclares(ct, c, es[2]);
    StoreLetDeclares(|c1.code|, c1, es[1]);
    StoreLetReads(c1, es[1], |c.code|, k);
    ExprReads(ct, c, es[2], k);
  }

  lemma {:induction false} BuiltinReads(ct: Builtins, c: CState, es: seq<Ast>, p: Prim, k: Code)
    requires es != [] && ShapeOf(ct, es) == ShBuiltin(p)
    requires !c.error && !CompileList(ct, c, es).error && |k.consts| <= MAX_POOL
    requires Holds(k, CompileList(ct, c, es), |c.code|, |CompileList(ct, c, es).code|)
    ensures ReadsList(ct, k, c.locals, |c.code|, es) == Some(|CompileList(ct, c, es).code|)
    decreases es, |es|
  {
    hide CompileAll, LoadConstant, ReadsAll, ScopeAfterAll, Distinct;
    var c1 := LoadConstant(c, Lit(Builtin(p)));
    var c2 := CompileAll(ct, c1, es, 1);
    assert CompileList(ct, c, es) == EmitBuiltinCall(c2, p, |es| - 1);
    AllDeclares(ct, c1, es, 1);
    LoadConstantKeeps(|c.code|, c, Lit(Builtin(p)));
    assert Holds(k, c2, |c.code|, |c2.code|);
    HoldsWithin(k, c2, |c.code|, |c2.code|, |c.code|, |c1.code|);
    HoldsEarlier(k, c1, c2, |c1.code|, |c.code|, |c1.code|);
    LoadConstantReads(c, Lit(Builtin(p)), k);
    AllReads(ct, c1, es, 1, k);
  }

  lemma {:induction false} CallReads(ct: Builtins, c: CState, es: seq<Ast>, k: Code)
    requires es != [] && ShapeOf(ct, es) == ShCall
    requires !c.error && !CompileList(ct, c, es).error && |k.consts| <= MAX_POOL
    requires Holds(k, CompileList(ct, c, es), |c.code|, |CompileList(ct, c, es).code|)
    ensures ReadsList(ct, k, c.locals, |c.code|, es) == Some(|CompileList(ct, c, es).code|)
    decreases es, |es|
  {
    hide CompileExpr, CompileAll, Reads, ReadsAll, ScopeAfter, ScopeAfterAll, EmitOp, Holds, Op1, Distinct;
    var c1 := CompileExpr(ct, c, es[0]);
    var c2 := CompileAll(ct, c1, es, 1);
    assert CompileList(ct, c, es) == EmitOp(c2, OP_CALLF, |es| - 1);
    EmitOpKeeps(0, c2, OP_CALLF, |es| - 1);
    ExprDeclares(ct, c, es[0]);
    AllDeclares(ct, c1, es, 1);
    OneMore(c2, OP_CALLF, |es| - 1, |c.code|, k);
    HoldsWithin(k, c2, |c.code|, |c2.code|, |c.code|, |c1.code|);
    HoldsEarlier(k, c1, c2, |c1.code|, |c.code|, |c1.code|);
    ExprReads(ct, c, es[0], k);
    HoldsWithin(k, c2, |c.code|, |c2.code|, |c1.code|, |c2.code|);
    AllReads(ct, c1, es, 1, k);
  }

  lemma {:induction false} AllReads(ct: Builtins, c: CState, es: seq<Ast>, i: nat, k: Code)
    requires i <= |es|
    requires !CompileAll(ct, c, es, i).error && |k.consts| <= MAX_POOL
    requires Holds(k, CompileAll(ct, c, es, i), |c.code|, |CompileAll(ct, c, es, i).code|)
    ensures ReadsAll(ct, k, c.locals, |c.code|, es, i) == Some(|CompileAll(ct, c, es, i).code|)
    decreases es, |es| - i
  {
    if i < |es| {
      var c1 := CompileExpr(ct, c, es[i]);
      var r := CompileAll(ct, c1, es, i + 1);
      ExprDeclares(ct, c, es[i]);
      AllDeclares(ct, c1, es, i + 1);
      HoldsWithin(k, r, |c.code|, |r.code|, |c.code|, |c1.code|);
      HoldsEarlier(k, c1, r, |c1.code|, |c.code|, |c1.code|);
      ExprReads(ct, c, es[i], k);
      AllReads(ct, c1, es, i + 1, k);
    }
  }

  lemma ByteReads(c: CState, op: byte, k: Code)
    requires Holds(k, Emit(c, op), |c.code|, |Emit(c, op).code|)
    ensures Op(k, |c.code|, op) == Some(|Emit(c, op).code|)
  {
  }

  lemma {:induction false} SeqReads(ct: Builtins, c: CState, es: seq<Ast>, lo: nat, i: nat, k: Code)
    requires lo <= i <= |es|
    requires !CompileSeq(ct, c, es, lo, i).error && |k.consts| <= MAX_POOL
    requires Holds(k, CompileSeq(ct, c, es, lo, i), |c.code|, |CompileSeq(ct, c, es, lo, i).code|)
    ensures ReadsSeq(ct, k, c.locals, |c.code|, es, lo, i) == Some(|CompileSeq(ct, c, es, lo, i).code|)
    decreases es, |es| - i
  {
    if i < |es| {
      hide CompileExpr, Reads, ScopeAfter, ScopeAfterAll, Holds, Op, Distinct;
      var c0 := if i > lo then Emit(c, OP_POP) else c;
      var c1 := CompileExpr(ct, c0, es[i]);
      var r := CompileSeq(ct, c1, es, lo, i + 1);
      assert CompileSeq(ct, c, es, lo, i) == r;
      ExprDeclares(ct, c0, es[i]);
      SeqDeclares(ct, c1, es, lo, i + 1);
      HoldsWithin(k, r, |c.code|, |r.code|, |c.code|, |c1.code|);
      HoldsEarlier(k, c1, r, |c1.code|, |c.code|, |c1.code|);
      HoldsWithin(k, c1, |c.code|, |c1.code|, |c.code|, |c0.code|);
      HoldsEarlier(k, c0, c1, |c0.code|, |c.code|, |c0.code|);
      if i > lo { ByteReads(c, OP_POP, k); }
      ExprReads(ct, c0, es[i], k);
      SeqReads(ct, c1, es, lo, i + 1, k);
    }
  }

  lemma SameBytes(c: CState, r: CState)
    requires Keeps(|c.code|, c, r)
    ensures |c.code| <= |r.code|
    ensures forall i :: 0 <= i < |c.code| ==> r.code[i] == c.code[i]
  {
    assert r.code[..|c.code|] == c.code;
  }

  lemma PatchBytes(c: CState, pos: nat)
    requires pos + 2 <= |c.code| && !PatchJump(c, pos).error
    ensures Target(PatchJump(c, pos).code, pos) == |c.code|
    ensures forall i :: 0 <= i < |c.code| && i != pos && i != pos + 1 ==> PatchJump(c, pos).code[i] == c.code[i]
    ensures !c.error && PatchJump(c, pos).consts == c.consts
  {
  }

  /** The pieces of a conditional in the finished code: both arms, and where the jumps go. */
  lemma IfBytes(c: CState, c1: CState, c3: CState, j: CState, c4: CState, c5: CState, r: CState, k: Code)
    requires Keeps(|c.code|, c, c1)
    requires Keeps(|c1.code| + 3, EmitJump(c1, OP_JMPF), c3)
    requires j == EmitJump(c3, OP_JMP)
    requires c4 == PatchJump(j, |c1.code| + 1)
    requires Keeps(|c4.code|, c4, c5)
    requires r == PatchJump(c5, |c3.code| + 1) && !r.error
    requires Holds(k, r, |c.code|, |r.code|)
    ensures !c1.error && !c3.error && !c4.error && !c5.error
    ensures |c4.code| == |c3.code| + 3 && |r.code| == |c5.code|
    ensures Holds(k, c1, |c.code|, |c1.code|)
    ensures Holds(k, c3, |c1.code| + 3, |c3.code|)
    ensures Holds(k, c5, |c4.code|, |c5.code|)
    ensures Jump(k, |c1.code|, OP_JMPF) == Some(|c4.code|)
    ensures Jump(k, |c3.code|, OP_JMP) == Some(|c5.code|)
  {
    hide PatchJump, Distinct;
    PatchKeeps(0, j, |c1.code| + 1);
    PatchKeeps(0, c5, |c3.code| + 1);
    PatchBytes(c5, |c3.code| + 1);
    PatchBytes(j, |c1.code| + 1);
    assert EmitJump(c1, OP_JMPF).code == EmitJump(c1, OP_JMPF).code[..|c1.code| + 3];
    SameBytes(EmitJump(c1, OP_JMPF), c3);
    SameBytes(c4, c5);
  }

  lemma {:induction false} IfReads(ct: Builtins, c: CState, es: seq<Ast>, k: Code)
    requires |es| >= 3 && ShapeOf(ct, es) == ShIf
    requires !c.error && !CompileIf(ct, c, es).error && |k.consts| <= MAX_POOL
    requires Holds(k, CompileIf(ct, c, es), |c.code|, |CompileIf(ct, c, es).code|)
    ensures ReadsIf(ct, k, c.locals, |c.code|, es) == Some(|CompileIf(ct, c, es).code|)
    decreases es, |es|
  {
    hide CompileExpr, Reads, ScopeAfter, LoadConstant, PatchJump, EmitJump, Const, Jump, Holds, Keeps, Distinct;
    var c1 := CompileExpr(ct, c, es[1]);
    var c2 := EmitJump(c1, OP_JMPF);
    EmitJumpKeeps(0, c1, OP_JMPF);
    var c3 := CompileExpr(ct, c2, es[2]);
    var j := EmitJump(c3, OP_JMP);
    EmitJumpKeeps(0, c3, OP_JMP);
    PatchKeeps(0, j, |c1.code| + 1);
    var c4 := PatchJump(j, |c1.code| + 1);
    var c5 := if |es| >= 4 then CompileExpr(ct, c4, es[3]) else LoadConstant(c4, Lit(ZERO));
    ExprDeclares(ct, c, es[1]);
    ExprDeclares(ct, c2, es[2]);
    if |es| >= 4 { ExprDeclares(ct, c4, es[3]); } else { LoadConstantKeeps(|c4.code|, c4, Lit(ZERO)); }
    KeepsGrows(c4, c5);
    IfBytes(c, c1, c3, j, c4, c5, PatchJump(c5, |c3.code| + 1), k);
    ExprReads(ct, c, es[1], k);
    ExprReads(ct, c2, es[2], k);
    if |es| >= 4 { ExprReads(ct, c4, es[3], k); } else { LoadConstantReads(c4, Lit(ZERO), k); }
  }

  lemma KeepsGrows(c: CState, r: CState)
    requires Keeps(|c.code|, c, r)
    ensures |c.code| <= |r.code|
  {
  }

  /** The second half of a `try` in the finished code: the handler and its call. */
  lemma TryTail(c3: CState, slot: byte, c5: CState, pos: nat, r: CState, lo: nat, k: Code)
    requires pos + 2 <= |c3.code| && lo <= |c3.code|
    requires Keeps(|c3.code| + 2, EmitOp(c3, OP_STOREENV, slot), c5)
    requires |c3.code| <= |c5.code|
    requires r == PatchJump(EmitOp(EmitOp(c5, OP_LOADENV, slot), OP_CALLF, 1), pos) && !r.error
    requires Holds(k, r, lo, |r.code|)
    ensures !c3.error && !c5.error && c3.consts <= k.consts
    ensures |r.code| == |c5.code| + 4
    ensures Holds(k, c5, |c3.code| + 2, |c5.code|)
    ensures Op1(k, |c3.code|, OP_STOREENV, slot) == Some(|c3.code| + 2)
    ensures Op1(k, |c5.code|, OP_LOADENV, slot) == Some(|c5.code| + 2)
    ensures Op1(k, |c5.code| + 2, OP_CALLF, 1) == Some(|r.code|)
    ensures lo <= pos ==> Target(k.code, pos) == |r.code|
    ensures forall i :: lo <= i < |c3.code| && i != pos && i != pos + 1 ==> k.code[i] == c3.code[i]
  {
    hide PatchJump, Distinct;
    var s := EmitOp(c3, OP_STOREENV, slot);
    var c6 := EmitOp(EmitOp(c5, OP_LOADENV, slot), OP_CALLF, 1);
    PatchKeeps(0, c6, pos);
    PatchBytes(c6, pos);
    SameBytes(s, c5);
    assert s.code[|c3.code|] == OP_STOREENV && s.code[|c3.code| + 1] == slot;
  }

  /** The first half: the body, the end of the trap, and the two jumps. */
  lemma TryBytes(c0: CState, b: CState, j: CState, c3: CState, slot: byte, c5: CState, r: CState, k: Code)
    requires Keeps(|c0.code| + 3, EmitJump(c0, OP_TRAP), b)
    requires j == EmitJump(Emit(b, OP_TRAP_END), OP_JMP)
    requires c3 == PatchJump(j, |c0.code| + 1)
    requires Keeps(|c3.code| + 2, EmitOp(c3, OP_STOREENV, slot), c5)
    requires |b.code| + 4 <= |c5.code|
    requires r == PatchJump(EmitOp(EmitOp(c5, OP_LOADENV, slot), OP_CALLF, 1), |b.code| + 2) && !r.error
    requires Holds(k, r, |c0.code|, |r.code|)
    ensures !b.error
    ensures |c3.code| == |b.code| + 4
    ensures Holds(k, b, |c0.code| + 3, |b.code|)
    ensures Jump(k, |c0.code|, OP_TRAP) == Some(|c3.code|)
    ensures Op(k, |b.code|, OP_TRAP_END) == Some(|b.code| + 1)
    ensures Jump(k, |b.code| + 1, OP_JMP) == Some(|r.code|)
  {
    hide PatchJump, Distinct;
    PatchKeeps(0, j, |c0.code| + 1);
    TryTail(c3, slot, c5, |b.code| + 2, r, |c0.code|, k);
    PatchBytes(j, |c0.code| + 1);
    SameBytes(EmitJump(c0, OP_TRAP), b);
    assert b.code[|c0.code|] == EmitJump(c0, OP_TRAP).code[|c0.code|] == OP_TRAP;
    assert j.code[|b.code|] == OP_TRAP_END && j.code[|b.code| + 1] == OP_JMP;
  }

  lemma {:induction false} TryReads(ct: Builtins, c: CState, es: seq<Ast>, k: Code)
    requires |es| == 3 && ShapeOf(ct, es) == ShTry
    requires !c.error && !CompileTry(ct, c, es).error && |k.consts| <= MAX_POOL
    requires Holds(k, CompileTry(ct, c, es), |c.code|, |CompileTry(ct, c, es).code|)
    ensures ReadsTry(ct, k, c.locals, |c.code|, es) == Some(|CompileTry(ct, c, es).code|)
    decreases es, |es|
  {
    hide CompileExpr, Reads, ScopeAfter, PatchJump, EmitJump, EmitOp, Emit, Jump, Op, Op1, Holds, Keeps, Distinct;
    var (c0, slot) := AddLocal(c, None);
    var c1 := EmitJump(c0, OP_TRAP);
    EmitJumpKeeps(0, c0, OP_TRAP);
    var b := CompileExpr(ct, c1, es[1]);
    ExprDeclares(ct, c1, es[1]);
    var c2 := Emit(b, OP_TRAP_END);
    EmitKeeps(0, b, OP_TRAP_END);
    var j := EmitJump(c2, OP_JMP);
    EmitJumpKeeps(0, c2, OP_JMP);
    PatchKeeps(0, j, |c0.code| + 1);
    var c3 := PatchJump(j, |c0.code| + 1);
    var c4 := EmitOp(c3, OP_STOREENV, slot.value);
    EmitOpKeeps(0, c3, OP_STOREENV, slot.value);
    var c5 := CompileExpr(ct, c4, es[2]);
    ExprDeclares(ct, c4, es[2]);
    EmitOpKeeps(0, c5, OP_LOADENV, slot.value);
    EmitOpKeeps(0, EmitOp(c5, OP_LOADENV, slot.value), OP_CALLF, 1);
    var c6 := EmitOp(EmitOp(c5, OP_LOADENV, slot.value), OP_CALLF, 1);
    TryTail(c3, slot.value, c5, |b.code| + 2, PatchJump(c6, |c2.code| + 1), |c0.code|, k);
    TryBytes(c0, b, j, c3, slot.value, c5, PatchJump(c6, |c2.code| + 1), k);
    ExprReads(ct, c1, es[1], k);
    ExprReads(ct, c4, es[2], k);
  }

  /** Every compiled lambda is laid out as its body demands. */
  lemma CompiledReads(ct: Builtins, fn: Value)
    requires CodeOf(ct, fn).Some?
    ensures ReadsBody(ct, CodeOf(ct, fn).value, fn.params, fn.body) == Some(|CodeOf(ct, fn).value.code|)
  {
    hide CompileSeq, ReadsSeq, AddParams, ParamScope, Holds, ScopeAfterAll, Distinct;
    var c := AddParams(START, fn.params);
    var k := CodeOf(ct, fn).value;
    ParamsDeclare(START, fn.params);
    assert START.locals + ParamScope(fn.params) == ParamScope(fn.params);
    SeqDeclares(ct, c, fn.body, 0, 0);
    AllHeld(ct, c, fn, k);
    SeqReads(ct, c, fn.body, 0, 0, k);
  }

  lemma AllHeld(ct: Builtins, c: CState, fn: Value, k: Code)
    requires fn.Lam? && c == AddParams(START, fn.params) && CodeOf(ct, fn) == Some(k)
    ensures var r := CompileSeq(ct, c, fn.body, 0, 0);
            && !r.error && |k.consts| <= MAX_POOL && Holds(k, r, |c.code|, |r.code|)
            && k.code == r.code + [OP_RET]
  {
    hide CompileSeq, AddParams, Distinct;
  }
}
