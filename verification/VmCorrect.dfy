/** The machine running compiled code does what direct evaluation does: same value
    or same error, same final slots, same world, and the stack exactly one higher. */
module VmCorrect {
  import opened Bytes
  import opened Options
  import opened Lang
  import opened Bytecode
  import opened CompileFacts
  import opened Layout
  import opened CompileCorrect
  import opened DirectEval
  import opened Machine

  /** A machine between instructions of compiled code, within its limits. */
  ghost predicate Good(e: Env, vm: Vm) {
    && CodeOf(e.ct, vm.fn).Some?
    && CodeOf(e.ct, vm.fn).value.nLocals == vm.nLocals
    && vm.ip >= 0
    && vm.fp + vm.nLocals <= |vm.ps| <= VM_STACK_SIZE
    && |vm.rs| <= VM_STACK_SIZE
    && |vm.ts| <= VM_TRAP_SIZE
    && TrapsBelow(vm)
  }

  /** No trap was set above the current heights. */
  ghost predicate TrapsBelow(vm: Vm) {
    forall t :: t in vm.ts ==> t.sp <= |vm.ps| && t.rp <= |vm.rs|
  }

  ghost function Locals(vm: Vm): seq<Slot>
    requires vm.fp + vm.nLocals <= |vm.ps|
  {
    vm.ps[vm.fp..vm.fp + vm.nLocals]
  }

  ghost function Here(vm: Vm): Place { Place(vm.fn, |vm.rs|, |vm.ts|) }

  /** `vm` further on in the same frame: another world, other locals, `temps` pushed. */
  ghost function At(vm: Vm, w: World, frame: seq<Slot>, temps: seq<Value>, ip: nat): Vm
    requires vm.fp + vm.nLocals <= |vm.ps|
  {
    vm.(w := w, ip := ip,
        ps := vm.ps[..vm.fp] + frame + vm.ps[vm.fp + vm.nLocals..] + Filled(temps))
  }

  /** Where evaluating one expression from `vm` must lead. */
  ghost function After(vm: Vm, q: nat, r: Res): State
    requires vm.fp + vm.nLocals <= |vm.ps|
  {
    match r.out
    case Ok(v) => Running(At(vm, r.w, r.frame, [v], q))
    case Err(p) => Throw(At(vm, r.w, r.frame, [], 0), p)
  }

  // ----- facts about machines in the same frame -----

  lemma AtSelf(e: Env, vm: Vm)
    requires Good(e, vm)
    ensures At(vm, vm.w, Locals(vm), [], vm.ip) == vm
  {
    assert vm.ps[..vm.fp] + Locals(vm) + vm.ps[vm.fp + vm.nLocals..] + Filled([]) == vm.ps;
  }

  lemma AtGood(e: Env, vm: Vm, w: World, frame: seq<Slot>, temps: seq<Value>, ip: nat)
    requires Good(e, vm) && |frame| == vm.nLocals && |vm.ps| + |temps| <= VM_STACK_SIZE
    ensures var u := At(vm, w, frame, temps, ip);
            Good(e, u) && Locals(u) == frame && |u.ps| == |vm.ps| + |temps| && Here(u) == Here(vm)
  {
    var u := At(vm, w, frame, temps, ip);
    assert u.ps[vm.fp..vm.fp + vm.nLocals] == frame;
  }

  lemma AtParts(vm: Vm, w: World, frame: seq<Slot>, temps: seq<Value>, ip: nat, q: nat)
    requires vm.fp + vm.nLocals <= |vm.ps|
    ensures var u := At(vm, w, frame, temps, ip);
            && u.fn == vm.fn && u.fp == vm.fp && u.nLocals == vm.nLocals && u.rs == vm.rs && u.w == w && u.ip == ip
            && u.(ip := q) == At(vm, w, frame, temps, q)
  {
  }

  lemma AtAt(vm: Vm, w: World, frame: seq<Slot>, temps: seq<Value>, ip: nat,
             w2: World, frame2: seq<Slot>, temps2: seq<Value>, ip2: nat)
    requires vm.fp + vm.nLocals <= |vm.ps| && |frame| == vm.nLocals == |frame2|
    ensures At(At(vm, w, frame, temps, ip), w2, frame2, temps2, ip2) == At(vm, w2, frame2, temps + temps2, ip2)
  {
    hide Filled;
    var below, above := vm.ps[..vm.fp], vm.ps[vm.fp + vm.nLocals..];
    FilledBoth(temps, temps2);
    Regrouped(below, frame, above, Filled(temps));
    Regrouped(below + frame2, above, Filled(temps), Filled(temps2));
  }

  lemma FilledBoth(a: seq<Value>, b: seq<Value>)
    ensures Filled(a + b) == Filled(a) + Filled(b)
  {
  }

  lemma Regrouped(a: seq<Slot>, f: seq<Slot>, b: seq<Slot>, t: seq<Slot>)
    ensures (a + f + b + t)[..|a|] == a && (a + f + b + t)[|a| + |f|..] == b + t
    ensures a + (f + b) + t == a + f + b + t == a + f + (b + t)
  {
  }

  /** An error unwinds past everything pushed since the innermost trap was set. */
  lemma ThrowSame(a: Vm, b: Vm, p: Value)
    requires a.ts == b.ts && a.w == b.w && TrapsBelow(b)
    requires b.ps <= a.ps && b.rs <= a.rs
    ensures Throw(a, p) == Throw(b, p)
  {
    hide Unwound;
    UnwoundSame(a, b);
  }

  lemma UnwoundSame(a: Vm, b: Vm)
    requires a.ts == b.ts && a.w == b.w && TrapsBelow(b)
    requires b.ps <= a.ps && b.rs <= a.rs
    ensures a.ts != [] ==> Unwound(a) == Unwound(b)
  {
    if a.ts != [] {
      var t := a.ts[|a.ts| - 1];
      assert t in b.ts;
      assert a.ps[..t.sp] == b.ps[..t.sp];
      assert a.rs[..t.rp] == b.rs[..t.rp];
    }
  }

  lemma ThrowAt(e: Env, vm: Vm, w: World, frame: seq<Slot>, temps: seq<Value>, ip: nat, p: Value)
    requires Good(e, vm) && |frame| == vm.nLocals
    ensures Throw(At(vm, w, frame, temps, ip), p) == Throw(At(vm, w, frame, [], 0), p)
  {
    assert Filled([]) == [];
    ThrowSame(At(vm, w, frame, temps, ip), At(vm, w, frame, [], 0), p);
  }

  lemma PushAt(e: Env, vm: Vm, w: World, frame: seq<Slot>, temps: seq<Value>, ip: nat, v: Value)
    requires Good(e, vm) && |frame| == vm.nLocals
    ensures Push(At(vm, w, frame, temps, ip), v) ==
            if |vm.ps| + |temps| >= VM_STACK_SIZE then Throw(At(vm, w, frame, [], 0), ZERO)
            else Running(At(vm, w, frame, temps + [v], ip))
  {
    assert Filled(temps + [v]) == Filled(temps) + [Some(v)];
    ThrowAt(e, vm, w, frame, temps, ip, ZERO);
  }

  lemma PopAt(e: Env, vm: Vm, w: World, frame: seq<Slot>, temps: seq<Value>, n: nat, ip: nat)
    requires Good(e, vm) && |frame| == vm.nLocals && n <= |temps|
    ensures var u := At(vm, w, frame, temps, ip);
            && CanPop(u, n)
            && Top(u, n) == temps[|temps| - n..]
            && Drop(u, n) == At(vm, w, frame, temps[..|temps| - n], ip)
            && |u.ps| == |vm.ps| + |temps|
            && (forall s :: 0 <= s < vm.nLocals ==> u.ps[vm.fp + s] == frame[s])
  {
    assert Filled(temps) == Filled(temps[..|temps| - n]) + Filled(temps[|temps| - n..]);
  }

  lemma StoreAt(e: Env, vm: Vm, w: World, frame: seq<Slot>, temps: seq<Value>, ip: nat, slot: nat, v: Value)
    requires Good(e, vm) && |frame| == vm.nLocals && slot < |frame|
    ensures var u := At(vm, w, frame, temps, ip);
            u.(ps := u.ps[vm.fp + slot := Some(v)]) == At(vm, w, frame[slot := Some(v)], temps, ip)
  {
    var u := At(vm, w, frame, temps, ip);
    assert u.ps[vm.fp + slot := Some(v)] == At(vm, w, frame[slot := Some(v)], temps, ip).ps;
  }

  // ----- single instructions -----

  lemma StepArg(e: Env, vm: Vm, op: byte, arg: nat, q: nat)
    requires Good(e, vm) && Op1(CodeOf(e.ct, vm.fn).value, vm.ip, op, arg) == Some(q)
    requires op in {OP_LOADENV, OP_STOREENV, OP_CALLN, OP_CALLF, OP_CALLS, OP_CALLD}
    ensures arg < 256 && Run(e, Running(vm), 1) == ExecArg(e, vm.(ip := q), op, arg)
  {
    hide ExecArg, CodeOf, Return, Push, PushConst, Resolve, ExecJump, CallBuiltin;
    assert Run(e, Running(vm), 1) == Step(e, vm);
  }

  lemma StepJump(e: Env, vm: Vm, op: byte, target: int)
    requires Good(e, vm) && Jump(CodeOf(e.ct, vm.fn).value, vm.ip, op) == Some(target)
    requires op in {OP_JMP, OP_JMPF, OP_TRAP}
    ensures Run(e, Running(vm), 1) == ExecJump(vm, op, target)
  {
    hide ExecArg, CodeOf, Return, Push, PushConst, Resolve, ExecJump, CallBuiltin;
    assert Run(e, Running(vm), 1) == Step(e, vm);
  }

  lemma StepConst(e: Env, vm: Vm, a: Ast, q: nat)
    requires Good(e, vm) && Const(CodeOf(e.ct, vm.fn).value, vm.ip, a) == Some(q)
    ensures Run(e, Running(vm), 1) == PushConst(vm.(ip := q), a)
  {
    hide ExecArg, CodeOf, Return, Push, PushConst, Resolve, ExecJump, CallBuiltin;
    assert Run(e, Running(vm), 1) == Step(e, vm);
  }

  lemma StepResolve(e: Env, vm: Vm, a: Ast, q: nat)
    requires Good(e, vm) && Indexed(CodeOf(e.ct, vm.fn).value, vm.ip, OP_RESOLVE, OP_RESOLVE_W, a) == Some(q)
    ensures Run(e, Running(vm), 1) == Resolve(e, vm.(ip := q), a)
  {
    hide ExecArg, CodeOf, Return, Push, PushConst, Resolve, ExecJump, CallBuiltin;
    assert Run(e, Running(vm), 1) == Step(e, vm);
  }

  /** An instruction without operands. */
  lemma StepOp(e: Env, vm: Vm, op: byte, q: nat)
    requires Good(e, vm) && Op(CodeOf(e.ct, vm.fn).value, vm.ip, op) == Some(q)
    ensures q == vm.ip + 1
    ensures Run(e, Running(vm), 1) == Exec(e, vm, CodeOf(e.ct, vm.fn).value, op)
  {
    hide Exec, CodeOf;
    assert Run(e, Running(vm), 1) == Step(e, vm);
  }

  lemma StepCallBuiltin(e: Env, vm: Vm, op: byte, p: Prim, args: seq<Value>, q: nat)
    requires Good(e, vm)
    requires var k := CodeOf(e.ct, vm.fn).value;
             || (op == OP_CALL1 && |args| == 1 && Op(k, vm.ip, op) == Some(q))
             || (op == OP_CALL2 && |args| == 2 && Op(k, vm.ip, op) == Some(q))
             || (op == OP_CALLN && Op1(k, vm.ip, op, |args|) == Some(q))
    requires CanPop(vm, |args| + 1) && Top(vm, |args| + 1) == [Builtin(p)] + args
    ensures Run(e, Running(vm), 1) == CallBuiltin(e, Drop(vm, |args| + 1).(ip := q), p, args)
  {
    hide Finish, Throw, CodeOf;
    assert ([Builtin(p)] + args)[1..] == args;
    if op == OP_CALLN { StepArg(e, vm, op, |args|, q); } else { StepOp(e, vm, op, q); }
  }

  lemma StepLoad(e: Env, vm: Vm, slot: nat, q: nat)
    requires Good(e, vm) && Op1(CodeOf(e.ct, vm.fn).value, vm.ip, OP_LOADENV, slot) == Some(q)
    requires vm.fp + slot < |vm.ps|
    ensures Run(e, Running(vm), 1) ==
            Push(vm.(ip := q), if vm.ps[vm.fp + slot].Some? then vm.ps[vm.fp + slot].value else ZERO)
  {
    StepArg(e, vm, OP_LOADENV, slot, q);
  }

  /** A run that has raised or returned stays put; one that has thrown goes on at the handler. */
  lemma Still(e: Env, s: State)
    ensures Run(e, s, 0) == s
  {
  }

  ghost function CodeHere(e: Env, vm: Vm): Code
    requires Good(e, vm)
  {
    CodeOf(e.ct, vm.fn).value
  }

  /** `n` instructions take `vm` where the result `r`, found at `q`, must lead. */
  ghost predicate Leads(e: Env, vm: Vm, n: nat, q: nat, r: Res) {
    && vm.fp + vm.nLocals <= |vm.ps|
    && Run(e, Running(vm), n) == After(vm, q, r)
    && (r.out.Ok? ==> |vm.ps| < VM_STACK_SIZE)
  }

  // ----- one expression -----

  lemma {:induction false} SimExpr(e: Env, vm: Vm, scope: Scope, a: Ast, q: nat) returns (n: nat)
    requires Good(e, vm)
    requires Reads(e.ct, CodeHere(e, vm), scope, vm.ip, a) == Some(q)
    requires |ScopeAfter(e.ct, scope, a)| <= vm.nLocals
    ensures Leads(e, vm, n, q, Eval(e, Here(vm), |vm.ps|, scope, vm.w, Locals(vm), a))
    decreases Left(|vm.rs|), 1, a, 0
  {
    match a
    case Lit(v) => n := SimConst(e, vm, a, v, q);
    case Name(s) => n := SimName(e, vm, scope, s, q);
    case List(es) =>
      if es == [] { n := SimConst(e, vm, a, Form(es), q); }
      else { n := SimList(e, vm, scope, es, q); }
  }

  /** Pushing `v` on the machine as it stands, or raising with payload `v`. */
  lemma PushHere(e: Env, vm: Vm, q: nat, v: Value)
    requires Good(e, vm)
    ensures Push(vm.(ip := q), v) == After(vm, q, Res(vm.w, Locals(vm), Pushed(|vm.ps|, v)))
    ensures Throw(vm.(ip := q), v) == After(vm, q, Res(vm.w, Locals(vm), Err(v)))
  {
    AtSelf(e, vm);
    PushAt(e, vm, vm.w, Locals(vm), [], q, v);
    ThrowAt(e, vm, vm.w, Locals(vm), [], q, v);
    assert [] + [v] == [v];
    assert vm.(ip := q) == At(vm, vm.w, Locals(vm), [], q);
  }

  lemma SimConst(e: Env, vm: Vm, a: Ast, v: Value, q: nat) returns (n: nat)
    requires Good(e, vm)
    requires a == Lit(v) || (a.List? && v == Form(a.elems))
    requires Const(CodeHere(e, vm), vm.ip, a) == Some(q)
    ensures Leads(e, vm, n, q, Res(vm.w, Locals(vm), Pushed(|vm.ps|, v)))
  {
    n := 1;
    StepConst(e, vm, a, q);
    PushHere(e, vm, q, v);
  }

  lemma SimName(e: Env, vm: Vm, scope: Scope, s: Sym, q: nat) returns (n: nat)
    requires Good(e, vm)
    requires Reads(e.ct, CodeHere(e, vm), scope, vm.ip, Name(s)) == Some(q)
    requires |scope| <= vm.nLocals
    ensures Leads(e, vm, n, q, Eval(e, Here(vm), |vm.ps|, scope, vm.w, Locals(vm), Name(s)))
  {
    hide Op1, Indexed, Run, After, CodeOf, Throw, Push;
    n := 1;
    var slot := Find(scope, s);
    if slot.Some? {
      StepArg(e, vm, OP_LOADENV, slot.value, q);
      var v := vm.ps[vm.fp + slot.value];
      PushHere(e, vm, q, if v.Some? then v.value else ZERO);
    } else {
      StepResolve(e, vm, Name(s), q);
      var v := EnvGet(e.ct, vm.w, s);
      PushHere(e, vm, q, if v.Some? then v.value else ZERO);
    }
  }

  lemma {:induction false} SimList(e: Env, vm: Vm, scope: Scope, es: seq<Ast>, q: nat) returns (n: nat)
    requires Good(e, vm) && es != []
    requires ReadsList(e.ct, CodeHere(e, vm), scope, vm.ip, es) == Some(q)
    requires |ScopeAfterList(e.ct, scope, es)| <= vm.nLocals
    ensures Leads(e, vm, n, q, EvalList(e, Here(vm), |vm.ps|, scope, vm.w, Locals(vm), es))
    decreases Left(|vm.rs|), 1, es, |es| + 1
  {
    hide Leads, Reads, ReadsAll, ReadsSeq, ReadsIf, ReadsTry, Eval, EvalAll, EvalSeq, EvalIf, EvalTry, EvalLet,
         EvalCall, EvalBuiltin, Const, Op1, CodeOf;
    match ShapeOf(e.ct, es)
    case ShDyn => n := SimDyn(e, vm, scope, es, q);
    case ShLet => n := SimLet(e, vm, scope, es, q);
    case ShIf => n := SimIf(e, vm, scope, es, q);
    case ShDo => n := SimSeq(e, vm, scope, es, 1, q);
    case ShTry => n := SimTry(e, vm, scope, es, q);
    case ShSelf => n := SimSelf(e, vm, scope, es, q);
    case ShBuiltin(p) => n := SimBuiltin(e, vm, scope, es, p, q);
    case ShCall => n := SimCall(e, vm, scope, es, q);
  }

  /** A reply from a callee that started at the height of `vm`. */
  lemma FinishAt(e: Env, vm: Vm, w: World, frame: seq<Slot>, q: nat, r: Reply)
    requires Good(e, vm) && |frame| == vm.nLocals && |vm.ps| < VM_STACK_SIZE
    ensures Finish(At(vm, w, frame, [], q), r) == After(vm, q, Res(r.w, frame, r.out))
  {
    match r.out
    case Ok(v) =>
      PushAt(e, vm, r.w, frame, [], q, v);
      assert [] + [v] == [v];
    case Err(p) =>
      ThrowAt(e, vm, r.w, frame, [], q, p);
  }

  lemma SimDyn(e: Env, vm: Vm, scope: Scope, es: seq<Ast>, q: nat) returns (n: nat)
    requires Good(e, vm) && es != [] && ShapeOf(e.ct, es) == ShDyn
    requires ReadsList(e.ct, CodeHere(e, vm), scope, vm.ip, es) == Some(q)
    requires |scope| <= vm.nLocals
    ensures Leads(e, vm, n, q, EvalList(e, Here(vm), |vm.ps|, scope, vm.w, Locals(vm), es))
  {
    hide Run, Throw, Const, Op1, CodeOf;
    var p1 := Const(CodeHere(e, vm), vm.ip, List(es)).value;
    n := SimConst(e, vm, List(es), Form(es), p1);
    if |vm.ps| < VM_STACK_SIZE {
      var u := At(vm, vm.w, Locals(vm), [Form(es)], p1);
      AtGood(e, vm, vm.w, Locals(vm), [Form(es)], p1);
      StepArg(e, u, OP_CALLD, 0, q);
      PopAt(e, vm, vm.w, Locals(vm), [Form(es)], 1, q);
      FinishAt(e, vm, vm.w, Locals(vm), q, e.host.dyn(vm.w, es));
      RunAdd(e, Running(vm), n, 1);
      n := n + 1;
    }
  }

  lemma {:induction false} SimLet(e: Env, vm: Vm, scope: Scope, es: seq<Ast>, q: nat) returns (n: nat)
    requires Good(e, vm) && |es| == 3 && ShapeOf(e.ct, es) == ShLet
    requires ReadsList(e.ct, CodeHere(e, vm), scope, vm.ip, es) == Some(q)
    requires |ScopeAfterList(e.ct, scope, es)| <= vm.nLocals
    ensures Leads(e, vm, n, q, EvalLet(e, Here(vm), |vm.ps|, scope, vm.w, Locals(vm), es))
    decreases Left(|vm.rs|), 1, es, |es|
  {
    hide Run, Throw, Op1, CodeOf, Reads, Eval;
    var p1 := Reads(e.ct, CodeHere(e, vm), scope, vm.ip, es[2]).value;
    n := SimExpr(e, vm, scope, es[2], p1);
    var r := Eval(e, Here(vm), |vm.ps|, scope, vm.w, Locals(vm), es[2]);
    if r.out.Ok? {
      var m := SimStore(e, vm, r.w, r.frame, r.out.v, Find(ScopeAfterList(e.ct, scope, es), es[1].s).value, p1, q);
      RunAdd(e, Running(vm), n, m);
      n := n + m;
    }
  }

  /** Keep the value on the stack and store a copy of it. */
  lemma SimStore(e: Env, vm: Vm, w: World, frame: seq<Slot>, v: Value, slot: nat, pc: nat, q: nat) returns (n: nat)
    requires Good(e, vm) && |frame| == vm.nLocals && |vm.ps| < VM_STACK_SIZE && slot < |frame|
    requires Op(CodeHere(e, vm), pc, OP_DUP) == Some(pc + 1)
    requires Op1(CodeHere(e, vm), pc + 1, OP_STOREENV, slot) == Some(q)
    ensures Run(e, Running(At(vm, w, frame, [v], pc)), n) ==
            if |vm.ps| + 1 >= VM_STACK_SIZE then Throw(At(vm, w, frame, [], 0), ZERO)
            else Running(At(vm, w, frame[slot := Some(v)], [v], q))
  {
    hide Run, Throw, Op, Op1, CodeOf, At;
    DupStep(e, vm, w, frame, v, pc);
    n := 1;
    if |vm.ps| + 1 < VM_STACK_SIZE {
      StoreStep(e, vm, w, frame, v, slot, pc + 1, q);
      RunAdd(e, Running(At(vm, w, frame, [v], pc)), 1, 1);
      n := 2;
    }
  }

  lemma DupStep(e: Env, vm: Vm, w: World, frame: seq<Slot>, v: Value, pc: nat)
    requires Good(e, vm) && |frame| == vm.nLocals && |vm.ps| < VM_STACK_SIZE
    requires Op(CodeHere(e, vm), pc, OP_DUP) == Some(pc + 1)
    ensures Run(e, Running(At(vm, w, frame, [v], pc)), 1) ==
            if |vm.ps| + 1 >= VM_STACK_SIZE then Throw(At(vm, w, frame, [], 0), ZERO)
            else Running(At(vm, w, frame, [v, v], pc + 1))
  {
    hide Run, Throw, Op, CodeOf;
    AtGood(e, vm, w, frame, [v], pc);
    StepOp(e, At(vm, w, frame, [v], pc), OP_DUP, pc + 1);
    PopAt(e, vm, w, frame, [v], 1, pc);
    PushAt(e, vm, w, frame, [v], pc + 1, v);
    assert [v] + [v] == [v, v];
  }

  lemma StoreStep(e: Env, vm: Vm, w: World, frame: seq<Slot>, v: Value, slot: nat, pc: nat, q: nat)
    requires Good(e, vm) && |frame| == vm.nLocals && |vm.ps| + 1 < VM_STACK_SIZE && slot < |frame|
    requires Op1(CodeHere(e, vm), pc, OP_STOREENV, slot) == Some(q)
    ensures Run(e, Running(At(vm, w, frame, [v, v], pc)), 1) == Running(At(vm, w, frame[slot := Some(v)], [v], q))
  {
    hide Run, Throw, Op1, CodeOf;
    AtGood(e, vm, w, frame, [v, v], pc);
    StepArg(e, At(vm, w, frame, [v, v], pc), OP_STOREENV, slot, q);
    PopAt(e, vm, w, frame, [v, v], 1, q);
    assert [v, v][..1] == [v] && [v, v][1..] == [v];
    StoreAt(e, vm, w, frame, [v], q, slot, v);
  }

  lemma {:induction false} SimIf(e: Env, vm: Vm, scope: Scope, es: seq<Ast>, q: nat) returns (n: nat)
    requires Good(e, vm) && |es| >= 3 && ShapeOf(e.ct, es) == ShIf
    requires ReadsIf(e.ct, CodeHere(e, vm), scope, vm.ip, es) == Some(q)
    requires |ScopeAfterList(e.ct, scope, es)| <= vm.nLocals
    ensures Leads(e, vm, n, q, EvalIf(e, Here(vm), |vm.ps|, scope, vm.w, Locals(vm), es))
    decreases Left(|vm.rs|), 1, es, |es|
  {
    hide Run, Throw, Const, Jump, CodeOf, Reads, Eval, At;
    var k := CodeHere(e, vm);
    var s1 := ScopeAfter(e.ct, scope, es[1]);
    var p1 := Reads(e.ct, k, scope, vm.ip, es[1]).value;
    var p2 := Reads(e.ct, k, s1, p1 + 3, es[2]).value;
    n := SimExpr(e, vm, scope, es[1], p1);
    var c := Eval(e, Here(vm), |vm.ps|, scope, vm.w, Locals(vm), es[1]);
    if c.out.Ok? {
      CondJump(e, vm, n, c, p1, p2 + 3);
      n := n + 1;
      var m;
      if Truthy(c.out.v) { m := SimThen(e, vm, c.w, c.frame, s1, es[2], p1 + 3, p2, q); }
      else if |es| >= 4 { m := SimArm(e, vm, c.w, c.frame, ScopeAfter(e.ct, s1, es[2]), es[3], p2 + 3, q); }
      else { m := SimZero(e, vm, c.w, c.frame, p2 + 3, q); }
      RunAdd(e, Running(vm), n, m);
      n := n + m;
    }
  }

  /** The conditional jump behind an evaluated condition. */
  lemma CondJump(e: Env, vm: Vm, n: nat, c: Res, p1: nat, els: nat)
    requires Good(e, vm) && |c.frame| == vm.nLocals && c.out.Ok? && Leads(e, vm, n, p1, c)
    requires Jump(CodeHere(e, vm), p1, OP_JMPF) == Some(els)
    ensures Run(e, Running(vm), n + 1) == Running(At(vm, c.w, c.frame, [], if Truthy(c.out.v) then p1 + 3 else els))
  {
    hide Run, Throw, Jump, CodeOf;
    AtGood(e, vm, c.w, c.frame, [c.out.v], p1);
    StepJump(e, At(vm, c.w, c.frame, [c.out.v], p1), OP_JMPF, els);
    PopAt(e, vm, c.w, c.frame, [c.out.v], 1, p1);
    RunAdd(e, Running(vm), n, 1);
  }

  /** The first arm, and the jump over the second. */
  lemma {:induction false} SimThen(e: Env, vm: Vm, w: World, frame: seq<Slot>, scope: Scope, a: Ast, pc: nat, p2: nat,
                                   q: nat) returns (n: nat)
    requires Good(e, vm) && |frame| == vm.nLocals
    requires Reads(e.ct, CodeHere(e, vm), scope, pc, a) == Some(p2) && Jump(CodeHere(e, vm), p2, OP_JMP) == Some(q)
    requires |ScopeAfter(e.ct, scope, a)| <= vm.nLocals
    ensures var r := Eval(e, Here(vm), |vm.ps|, scope, w, frame, a);
            && Run(e, Running(At(vm, w, frame, [], pc)), n) == After(vm, q, r)
            && (r.out.Ok? ==> |vm.ps| < VM_STACK_SIZE)
    decreases Left(|vm.rs|), 1, a, 2
  {
    hide Run, Throw, Jump, CodeOf, Reads, Eval;
    n := SimArm(e, vm, w, frame, scope, a, pc, p2);
    var r := Eval(e, Here(vm), |vm.ps|, scope, w, frame, a);
    if r.out.Ok? {
      AtGood(e, vm, r.w, r.frame, [r.out.v], p2);
      StepJump(e, At(vm, r.w, r.frame, [r.out.v], p2), OP_JMP, q);
      RunAdd(e, Running(At(vm, w, frame, [], pc)), n, 1);
      n := n + 1;
    }
  }

  /** An expression evaluated further on in the same frame, nothing pushed. */
  lemma {:induction false} SimArm(e: Env, vm: Vm, w: World, frame: seq<Slot>, scope: Scope, a: Ast, pc: nat, q: nat)
    returns (n: nat)
    requires Good(e, vm) && |frame| == vm.nLocals
    requires Reads(e.ct, CodeHere(e, vm), scope, pc, a) == Some(q)
    requires |ScopeAfter(e.ct, scope, a)| <= vm.nLocals
    ensures var r := Eval(e, Here(vm), |vm.ps|, scope, w, frame, a);
            && Run(e, Running(At(vm, w, frame, [], pc)), n) == After(vm, q, r)
            && (r.out.Ok? ==> |vm.ps| < VM_STACK_SIZE)
    decreases Left(|vm.rs|), 1, a, 1
  {
    hide Run, Throw, CodeOf, Reads, Eval;
    var u := At(vm, w, frame, [], pc);
    AtGood(e, vm, w, frame, [], pc);
    n := SimExpr(e, u, scope, a, q);
    AfterAt(vm, w, frame, [], pc, q, Eval(e, Here(vm), |vm.ps|, scope, w, frame, a));
  }

  lemma AfterAt(vm: Vm, w: World, frame: seq<Slot>, temps: seq<Value>, pc: nat, q: nat, r: Res)
    requires vm.fp + vm.nLocals <= |vm.ps| && |frame| == vm.nLocals == |r.frame|
    ensures var u := At(vm, w, frame, temps, pc);
            && (r.out.Ok? ==> After(u, q, r) == Running(At(vm, r.w, r.frame, temps + [r.out.v], q)))
            && (r.out.Err? ==> After(u, q, r) == Throw(At(vm, r.w, r.frame, temps, 0), r.out.payload))
            && (temps == [] ==> After(u, q, r) == After(vm, q, r))
  {
    match r.out
    case Ok(v) =>
      AtAt(vm, w, frame, temps, pc, r.w, r.frame, [v], q);
      assert temps == [] ==> temps + [v] == [v];
    case Err(p) =>
      AtAt(vm, w, frame, temps, pc, r.w, r.frame, [], 0);
      assert temps + [] == temps;
  }

  /** The missing arm of a conditional: the constant zero. */
  lemma SimZero(e: Env, vm: Vm, w: World, frame: seq<Slot>, pc: nat, q: nat) returns (n: nat)
    requires Good(e, vm) && |frame| == vm.nLocals && |vm.ps| < VM_STACK_SIZE
    requires Const(CodeHere(e, vm), pc, Lit(ZERO)) == Some(q)
    ensures Run(e, Running(At(vm, w, frame, [], pc)), n) == After(vm, q, Res(w, frame, Ok(ZERO)))
  {
    hide Run, Throw, CodeOf, Const;
    var u := At(vm, w, frame, [], pc);
    AtGood(e, vm, w, frame, [], pc);
    n := SimConst(e, u, Lit(ZERO), ZERO, q);
    AfterAt(vm, w, frame, [], pc, q, Res(w, frame, Ok(ZERO)));
  }

  lemma {:induction false} SimSeq(e: Env, vm: Vm, scope: Scope, es: seq<Ast>, i: nat, q: nat) returns (n: nat)
    requires i < |es| && Good(e, vm)
    requires ReadsSeq(e.ct, CodeHere(e, vm), scope, vm.ip, es, i, i) == Some(q)
    requires |ScopeAfterAll(e.ct, scope, es, i)| <= vm.nLocals
    ensures Leads(e, vm, n, q, EvalSeq(e, Here(vm), |vm.ps|, scope, vm.w, Locals(vm), es, i))
    decreases Left(|vm.rs|), 1, es, |es| - i, 1
  {
    AtSelf(e, vm);
    n := SimSeqFrom(e, vm, vm.w, Locals(vm), [], scope, es, i, i, vm.ip, q);
  }

  /** The rest of a sequence; the value of the previous form, if any, is still on the stack. */
  lemma {:induction false} SimSeqFrom(e: Env, vm: Vm, w: World, frame: seq<Slot>, prev: seq<Value>, scope: Scope,
                                      es: seq<Ast>, lo: nat, i: nat, pc: nat, q: nat) returns (n: nat)
    requires lo <= i < |es| && Good(e, vm) && |frame| == vm.nLocals
    requires |prev| == (if i > lo then 1 else 0) && |vm.ps| + |prev| <= VM_STACK_SIZE
    requires ReadsSeq(e.ct, CodeHere(e, vm), scope, pc, es, lo, i) == Some(q)
    requires |ScopeAfterAll(e.ct, scope, es, i)| <= vm.nLocals
    ensures var r := EvalSeq(e, Here(vm), |vm.ps|, scope, w, frame, es, i);
            && Run(e, Running(At(vm, w, frame, prev, pc)), n) == After(vm, q, r)
            && (r.out.Ok? ==> |vm.ps| < VM_STACK_SIZE)
    decreases Left(|vm.rs|), 1, es, |es| - i, 0
  {
    hide Run, Throw, CodeOf, Reads, Eval, After;
    var k := CodeHere(e, vm);
    var start := Running(At(vm, w, frame, prev, pc));
    var p0 := pc;
    n := 0;
    if i > lo {
      p0 := pc + 1;
      AtGood(e, vm, w, frame, prev, pc);
      StepOp(e, At(vm, w, frame, prev, pc), OP_POP, p0);
      PopAt(e, vm, w, frame, prev, 1, pc);
      assert prev[..0] == [];
      n := 1;
    } else {
      assert prev == [];
      Still(e, start);
    }
    assert Run(e, start, n) == Running(At(vm, w, frame, [], p0));
    var p1 := Reads(e.ct, k, scope, p0, es[i]).value;
    var m := SimArm(e, vm, w, frame, scope, es[i], p0, p1);
    RunAdd(e, start, n, m);
    n := n + m;
    var h := Eval(e, Here(vm), |vm.ps|, scope, w, frame, es[i]);
    var s1 := ScopeAfter(e.ct, scope, es[i]);
    if h.out.Err? {
      AfterErr(vm, p1, q, h);
    } else if i + 1 == |es| {
      assert p1 == q;
    } else {
      AfterOk(vm, p1, h);
      m := SimSeqFrom(e, vm, h.w, h.frame, [h.out.v], s1, es, lo, i + 1, p1, q);
      RunAdd(e, start, n, m);
      n := n + m;
    }
  }

  lemma AfterErr(vm: Vm, p: nat, q: nat, r: Res)
    requires vm.fp + vm.nLocals <= |vm.ps| && r.out.Err?
    ensures After(vm, p, r) == After(vm, q, r) == Throw(At(vm, r.w, r.frame, [], 0), r.out.payload)
  {
  }

  lemma AfterOk(vm: Vm, p: nat, r: Res)
    requires vm.fp + vm.nLocals <= |vm.ps| && r.out.Ok?
    ensures After(vm, p, r) == Running(At(vm, r.w, r.frame, [r.out.v], p))
  {
  }

  /** Arguments pushed one by one on top of `temps`. */
  lemma {:induction false} SimAll(e: Env, vm: Vm, w: World, frame: seq<Slot>, temps: seq<Value>, scope: Scope,
                                  es: seq<Ast>, i: nat, pc: nat, q: nat) returns (n: nat)
    requires i <= |es| && Good(e, vm) && |frame| == vm.nLocals && |vm.ps| + |temps| <= VM_STACK_SIZE
    requires ReadsAll(e.ct, CodeHere(e, vm), scope, pc, es, i) == Some(q)
    requires |ScopeAfterAll(e.ct, scope, es, i)| <= vm.nLocals
    ensures var r := EvalAll(e, Here(vm), |vm.ps| + |temps|, scope, w, frame, es, i);
            match r.out
            case Vals(vs) =>
              && Run(e, Running(At(vm, w, frame, temps, pc)), n) == Running(At(vm, r.w, r.frame, temps + vs, q))
              && |vm.ps| + |temps| + |vs| <= VM_STACK_SIZE
            case Bad(p) => Run(e, Running(At(vm, w, frame, temps, pc)), n) == Throw(At(vm, r.w, r.frame, [], 0), p)
    decreases Left(|vm.rs|), 1, es, |es| - i, 0
  {
    hide Run, Throw, CodeOf, Reads, Eval, After;
    var u := At(vm, w, frame, temps, pc);
    if i == |es| {
      n := 0;
      Still(e, Running(u));
      assert temps + [] == temps;
    } else {
      var p1 := Reads(e.ct, CodeHere(e, vm), scope, pc, es[i]).value;
      AtGood(e, vm, w, frame, temps, pc);
      n := SimExpr(e, u, scope, es[i], p1);
      var h := Eval(e, Here(vm), |vm.ps| + |temps|, scope, w, frame, es[i]);
      AfterAt(vm, w, frame, temps, pc, p1, h);
      if h.out.Err? {
        ThrowAt(e, vm, h.w, h.frame, temps, 0, h.out.payload);
      } else {
        var m := SimAll(e, vm, h.w, h.frame, temps + [h.out.v], ScopeAfter(e.ct, scope, es[i]), es, i + 1, p1, q);
        RunAdd(e, Running(u), n, m);
        n := n + m;
        var r := EvalAll(e, Here(vm), |vm.ps| + |temps| + 1, ScopeAfter(e.ct, scope, es[i]), h.w, h.frame, es, i + 1);
        if r.out.Vals? { assert temps + [h.out.v] + r.out.vs == temps + ([h.out.v] + r.out.vs); }
      }
    }
  }

  lemma {:induction false} SimCall(e: Env, vm: Vm, scope: Scope, es: seq<Ast>, q: nat) returns (n: nat)
    requires Good(e, vm) && es != [] && ShapeOf(e.ct, es) == ShCall
    requires ReadsList(e.ct, CodeHere(e, vm), scope, vm.ip, es) == Some(q)
    requires |ScopeAfterList(e.ct, scope, es)| <= vm.nLocals
    ensures Leads(e, vm, n, q, EvalCall(e, Here(vm), |vm.ps|, scope, vm.w, Locals(vm), es))
    decreases Left(|vm.rs|), 1, es, |es|
  {
    hide Run, Throw, CodeOf, Reads, ReadsAll, Eval, EvalAll, Op1, Apply;
    var k := CodeHere(e, vm);
    var p1 := Reads(e.ct, k, scope, vm.ip, es[0]).value;
    var s1 := ScopeAfter(e.ct, scope, es[0]);
    var p2 := ReadsAll(e.ct, k, s1, p1, es, 1).value;
    n := SimExpr(e, vm, scope, es[0], p1);
    var h := Eval(e, Here(vm), |vm.ps|, scope, vm.w, Locals(vm), es[0]);
    if h.out.Ok? {
      var m := SimAll(e, vm, h.w, h.frame, [h.out.v], s1, es, 1, p1, p2);
      RunAdd(e, Running(vm), n, m);
      n := n + m;
      var r := EvalAll(e, Here(vm), |vm.ps| + 1, s1, h.w, h.frame, es, 1);
      if r.out.Vals? {
        m := SimApply(e, vm, r.w, r.frame, h.out.v, r.out.vs, p2, q);
        RunAdd(e, Running(vm), n, m);
        n := n + m;
      }
    }
  }

  /** `OP_CALLF` with the function and its arguments on top of the stack. */
  lemma {:induction false} SimApply(e: Env, vm: Vm, w: World, frame: seq<Slot>, f: Value, args: seq<Value>, pc: nat,
                                    q: nat) returns (n: nat)
    requires Good(e, vm) && |frame| == vm.nLocals && |vm.ps| + 1 + |args| <= VM_STACK_SIZE
    requires Op1(CodeHere(e, vm), pc, OP_CALLF, |args|) == Some(q)
    ensures var c := Apply(e, |vm.rs|, |vm.ts|, |vm.ps|, w, f, args);
            Run(e, Running(At(vm, w, frame, [f] + args, pc)), n) == After(vm, q, Res(c.w, frame, c.out))
    decreases Left(|vm.rs|), 0, 1
  {
    hide Run, Throw, CodeOf, Op1, Apply, CallValue, Finish;
    var temps := [f] + args;
    var u := At(vm, w, frame, temps, pc);
    AtGood(e, vm, w, frame, temps, pc);
    StepArg(e, u, OP_CALLF, |args|, q);
    PopAt(e, vm, w, frame, temps, |temps|, q);
    assert temps[..0] == [] && temps[0..] == temps && temps[1..] == args;
    var v := At(vm, w, frame, [], q);
    AtGood(e, vm, w, frame, [], q);
    var m := SimValue(e, v, f, args);
    RunAdd(e, Running(u), 1, m);
    n := 1 + m;
    FinishAt(e, vm, w, frame, q, Apply(e, |vm.rs|, |vm.ts|, |vm.ps|, w, f, args));
  }

  /** The call proper, once function and arguments are popped. */
  lemma {:induction false} SimValue(e: Env, u: Vm, f: Value, args: seq<Value>) returns (n: nat)
    requires Good(e, u) && |u.ps| < VM_STACK_SIZE
    ensures Run(e, CallValue(e, u, f, args), n) == Finish(u, Apply(e, |u.rs|, |u.ts|, |u.ps|, u.w, f, args))
    decreases Left(|u.rs|), 0, 0
  {
    hide Run, Throw, CodeOf, RunBody;
    n := 0;
    Still(e, CallValue(e, u, f, args));
    if f.Lam? && CodeOf(e.ct, f).Some? {
      FrameSize(e.ct, f);
      var nl := CodeOf(e.ct, f).value.nLocals;
      if |u.rs| < VM_STACK_SIZE && |u.ps| + nl < VM_STACK_SIZE && |args| == |f.params| {
        n := SimFrame(e, u, Ctx(Some(u.fn), u.fp, u.ip), f, args);
      }
    }
  }

  ghost function Framed(u: Vm, c: Ctx, f: Value, nLocals: nat, args: seq<Value>): Vm {
    Vm(f, nLocals, |u.ps|, 0, u.ps + Filled(args) + Unset(if nLocals >= |args| then nLocals - |args| else 0),
       u.rs + [c], u.ts, u.w)
  }

  /** A fresh frame runs its body and returns to `u`, by a call or a self-call. */
  lemma {:induction false} SimFrame(e: Env, u: Vm, c: Ctx, f: Value, args: seq<Value>) returns (n: nat)
    requires Good(e, u) && CodeOf(e.ct, f).Some? && f.Lam?
    requires |u.rs| < VM_STACK_SIZE && |u.ps| + Height(args, CodeOf(e.ct, f).value.nLocals) < VM_STACK_SIZE
    requires c == Ctx(Some(u.fn), u.fp, u.ip) || (c == Ctx(None, u.fp, u.ip) && f == u.fn)
    ensures Run(e, Running(Framed(u, c, f, CodeOf(e.ct, f).value.nLocals, args)), n)
         == Finish(u, RunBody(e, Place(f, |u.rs| + 1, |u.ts|), |u.ps|, u.w, args))
    decreases Left(|u.rs| + 1), 2
  {
    hide Run, Throw, CodeOf, ReadsSeq, EvalSeq, ScopeAfterAll;
    var k := CodeOf(e.ct, f).value;
    var vm := Framed(u, c, f, k.nLocals, args);
    FramedGood(e, u, c, f, args);
    FrameSize(e.ct, f);
    CompiledReads(e.ct, f);
    var p := ReadsSeq(e.ct, k, ParamScope(f.params), 0, f.body, 0, 0).value;
    if f.body == [] {
      n := 1;
      SimEmpty(e, u, c, f, args);
    } else {
      n := SimSeq(e, vm, ParamScope(f.params), f.body, 0, p);
      var r := EvalSeq(e, Here(vm), |vm.ps|, ParamScope(f.params), vm.w, Locals(vm), f.body, 0);
      if r.out.Ok? {
        FrameReturns(e, u, c, vm, r.w, r.frame, r.out.v, p);
        RunAdd(e, Running(vm), n, 1);
        n := n + 1;
      } else {
        ThrowSame(At(vm, r.w, r.frame, [], 0), u.(w := r.w), r.out.payload);
      }
    }
  }

  /** An empty body returns at once: null, or a surplus argument. */
  lemma SimEmpty(e: Env, u: Vm, c: Ctx, f: Value, args: seq<Value>)
    requires Good(e, u) && CodeOf(e.ct, f).Some? && f.Lam? && f.body == []
    requires |u.rs| < VM_STACK_SIZE && |u.ps| + Height(args, CodeOf(e.ct, f).value.nLocals) < VM_STACK_SIZE
    requires c == Ctx(Some(u.fn), u.fp, u.ip) || (c == Ctx(None, u.fp, u.ip) && f == u.fn)
    ensures var nl := CodeOf(e.ct, f).value.nLocals;
            Run(e, Running(Framed(u, c, f, nl, args)), 1) == Push(u, if |args| > nl then args[|args| - 1] else Null)
  {
    hide Run, CodeOf, Push, Return, Good, Framed, At, Locals, Reads;
    var k := CodeOf(e.ct, f).value;
    var vm := Framed(u, c, f, k.nLocals, args);
    FramedGood(e, u, c, f, args);
    FramedParts(e, u, c, f, args);
    CompiledReads(e.ct, f);
    EmptySeq(e.ct, k, ParamScope(f.params));
    StepOp(e, vm, OP_RET, 1);
    if |args| > k.nLocals {
      var below := Surplus(e, u, c, f, args);
      ReturnTo(e, u, c, below, u.w, Locals(vm), [args[|args| - 1]], 0);
    } else {
      ReturnTo(e, u, c, vm, u.w, Locals(vm), [], 0);
    }
  }

  lemma FramedParts(e: Env, u: Vm, c: Ctx, f: Value, args: seq<Value>)
    requires Good(e, u) && CodeOf(e.ct, f).Some?
    requires |u.rs| < VM_STACK_SIZE && |u.ps| + Height(args, CodeOf(e.ct, f).value.nLocals) < VM_STACK_SIZE
    ensures var nl := CodeOf(e.ct, f).value.nLocals;
            var vm := Framed(u, c, f, nl, args);
            && vm.fp == |u.ps| && u.ps <= vm.ps && vm.rs == u.rs + [c] && vm.ts == u.ts && vm.fn == f && vm.ip == 0
               && vm.w == u.w
            && vm.nLocals == nl && vm.fp + nl <= |vm.ps| && |Locals(vm)| == nl && (f == u.fn ==> u.nLocals == nl)
            && (|args| <= nl ==> |vm.ps| == vm.fp + nl && vm == At(vm, u.w, Locals(vm), [], 0))
  {
    hide CodeOf;
    var vm := Framed(u, c, f, CodeOf(e.ct, f).value.nLocals, args);
    if |args| <= vm.nLocals { assert vm.ps == vm.ps[..vm.fp] + Locals(vm) + vm.ps[vm.fp + vm.nLocals..] + Filled([]); }
  }

  /** A frame with surplus arguments, as one with the last of them pushed. */
  lemma Surplus(e: Env, u: Vm, c: Ctx, f: Value, args: seq<Value>) returns (below: Vm)
    requires Good(e, u) && CodeOf(e.ct, f).Some? && |args| > CodeOf(e.ct, f).value.nLocals
    requires |u.rs| < VM_STACK_SIZE && |u.ps| + |args| < VM_STACK_SIZE
    ensures var vm := Framed(u, c, f, CodeOf(e.ct, f).value.nLocals, args);
            && Good(e, below) && below.fp == |u.ps| && u.ps <= below.ps && below.rs == u.rs + [c] && below.ts == u.ts
            && below.fn == f && below.nLocals == vm.nLocals && vm.fp + vm.nLocals <= |vm.ps|
            && vm == At(below, u.w, Locals(vm), [args[|args| - 1]], 0)
  {
    hide CodeOf;
    var vm := Framed(u, c, f, CodeOf(e.ct, f).value.nLocals, args);
    below := vm.(ps := vm.ps[..|vm.ps| - 1]);
    hide Filled;
    assert vm.ps == u.ps + Filled(args);
    SurplusSlots(u.ps, args, vm.nLocals);
  }

  lemma SurplusSlots(base: seq<Slot>, args: seq<Value>, nl: nat)
    requires nl < |args|
    ensures |Filled(args)| == |args|
    ensures var ps := base + Filled(args);
            var below := ps[..|ps| - 1];
            base <= below && ps == below[..|base|] + ps[|base|..|base| + nl] + below[|base| + nl..]
              + Filled([args[|args| - 1]])
  {
    var ps := base + Filled(args);
    assert ps[|ps| - 1..] == Filled([args[|args| - 1]]);
    Cut4(ps, |base|, |base| + nl, |ps| - 1);
    assert ps[..|ps| - 1][..|base|] == ps[..|base|] == base;
    assert ps[..|ps| - 1][|base| + nl..] == ps[|base| + nl..|ps| - 1];
  }

  lemma Cut4(s: seq<Slot>, i: nat, j: nat, k: nat)
    requires i <= j <= k <= |s|
    ensures s == s[..i] + s[i..j] + s[j..k] + s[k..]
  {
  }

  lemma FrameReturns(e: Env, u: Vm, c: Ctx, vm: Vm, w: World, frame: seq<Slot>, v: Value, p: nat)
    requires Good(e, u) && Good(e, vm) && |frame| == vm.nLocals && |vm.ps| < VM_STACK_SIZE
    requires vm.fp == |u.ps| && u.ps <= vm.ps
    requires vm.rs == u.rs + [c] && vm.ts == u.ts
    requires c == Ctx(Some(u.fn), u.fp, u.ip)
             || (c == Ctx(None, u.fp, u.ip) && vm.fn == u.fn && vm.nLocals == u.nLocals)
    requires Op(CodeHere(e, vm), p, OP_RET) == Some(p + 1)
    ensures Run(e, Running(At(vm, w, frame, [v], p)), 1) == Push(u.(w := w), v)
  {
    hide Run, Throw, CodeOf, Op, Push, Return;
    AtGood(e, vm, w, frame, [v], p);
    StepOp(e, At(vm, w, frame, [v], p), OP_RET, p + 1);
    ReturnTo(e, u, c, vm, w, frame, [v], p);
  }

  lemma EmptySeq(ct: Builtins, k: Code, scope: Scope)
    ensures ReadsSeq(ct, k, scope, 0, [], 0, 0) == Some(0)
  {
  }

  lemma OnlyLambdas(ct: Builtins, f: Value)
    requires CodeOf(ct, f).Some?
    ensures f.Lam?
  {
  }

  lemma FramedGood(e: Env, u: Vm, c: Ctx, f: Value, args: seq<Value>)
    requires Good(e, u) && CodeOf(e.ct, f).Some?
    requires |u.rs| < VM_STACK_SIZE && |u.ps| + Height(args, CodeOf(e.ct, f).value.nLocals) < VM_STACK_SIZE
    ensures var nl := CodeOf(e.ct, f).value.nLocals;
            var vm := Framed(u, c, f, nl, args);
            Good(e, vm) && Locals(vm) == Fresh(args, nl) && |vm.ps| == |u.ps| + Height(args, nl)
  {
  }

  /** Returning pops exactly the callee's frame and pushes its value on the caller's stack. */
  lemma ReturnTo(e: Env, u: Vm, c: Ctx, vm: Vm, w: World, frame: seq<Slot>, v: seq<Value>, p: nat)
    requires Good(e, u) && Good(e, vm) && |frame| == vm.nLocals && |v| <= 1
    requires vm.fp == |u.ps| && u.ps <= vm.ps && (v == [] ==> |vm.ps| == vm.fp + vm.nLocals)
    requires vm.rs == u.rs + [c] && vm.ts == u.ts
    requires c == Ctx(Some(u.fn), u.fp, u.ip)
             || (c == Ctx(None, u.fp, u.ip) && vm.fn == u.fn && vm.nLocals == u.nLocals)
    ensures Return(e, At(vm, w, frame, v, p)) == Push(u.(w := w), if v == [] then Null else v[0])
  {
    hide CodeOf, Push;
    var a := At(vm, w, frame, v, p);
    assert a.ps[..a.fp] == u.ps;
    assert a.rs[..|a.rs| - 1] == u.rs;
  }

  lemma {:induction false} SimBuiltin(e: Env, vm: Vm, scope: Scope, es: seq<Ast>, p: Prim, q: nat) returns (n: nat)
    requires Good(e, vm) && es != [] && ShapeOf(e.ct, es) == ShBuiltin(p)
    requires ReadsList(e.ct, CodeHere(e, vm), scope, vm.ip, es) == Some(q)
    requires |ScopeAfterList(e.ct, scope, es)| <= vm.nLocals
    ensures Leads(e, vm, n, q, EvalBuiltin(e, Here(vm), |vm.ps|, scope, vm.w, Locals(vm), es, p))
    decreases Left(|vm.rs|), 1, es, |es|
  {
    hide Run, Throw, CodeOf, ReadsAll, EvalAll, Op, Op1, Const, Apply;
    var k := CodeHere(e, vm);
    var f := Builtin(p);
    var p1 := Const(k, vm.ip, Lit(f)).value;
    var p2 := ReadsAll(e.ct, k, scope, p1, es, 1).value;
    n := SimConst(e, vm, Lit(f), f, p1);
    if |vm.ps| < VM_STACK_SIZE {
      var m := SimAll(e, vm, vm.w, Locals(vm), [f], scope, es, 1, p1, p2);
      RunAdd(e, Running(vm), n, m);
      n := n + m;
      var r := EvalAll(e, Here(vm), |vm.ps| + 1, scope, vm.w, Locals(vm), es, 1);
      if r.out.Vals? {
        m := SimPrim(e, vm, r.w, r.frame, p, r.out.vs, p2, q);
        RunAdd(e, Running(vm), n, m);
        n := n + m;
      }
    }
  }

  /** Whichever call instruction the compiler chose, the builtin gets its arguments. */
  lemma {:induction false} SimPrim(e: Env, vm: Vm, w: World, frame: seq<Slot>, p: Prim, args: seq<Value>, pc: nat,
                                   q: nat) returns (n: nat)
    requires Good(e, vm) && |frame| == vm.nLocals && |vm.ps| + 1 + |args| <= VM_STACK_SIZE
    requires var k := CodeHere(e, vm);
             (if p.kind == Unary && |args| == 1 then Op(k, pc, OP_CALL1)
              else if p.kind == Binary && |args| == 2 then Op(k, pc, OP_CALL2)
              else if p.kind == Vary then Op1(k, pc, OP_CALLN, |args|)
              else Op1(k, pc, OP_CALLF, |args|)) == Some(q)
    ensures var c := Apply(e, |vm.rs|, |vm.ts|, |vm.ps|, w, Builtin(p), args);
            Run(e, Running(At(vm, w, frame, [Builtin(p)] + args, pc)), n) == After(vm, q, Res(c.w, frame, c.out))
    decreases Left(|vm.rs|), 0, 2
  {
    hide Run, Throw, CodeOf, Op, Op1, Finish, Push;
    var temps := [Builtin(p)] + args;
    if (p.kind == Unary && |args| == 1) || (p.kind == Binary && |args| == 2) || p.kind == Vary {
      var u := At(vm, w, frame, temps, pc);
      AtGood(e, vm, w, frame, temps, pc);
      PopAt(e, vm, w, frame, temps, |temps|, pc);
      assert temps[..0] == [] && temps[0..] == temps;
      StepCallBuiltin(e, u, if p.kind == Unary then OP_CALL1 else if p.kind == Binary then OP_CALL2 else OP_CALLN,
                      p, args, q);
      assert Drop(u, |temps|).(ip := q) == At(vm, w, frame, [], q);
      assert p.kind == Unary ==> args[..1] == args;
      assert p.kind == Binary ==> args[..2] == args;
      FinishAt(e, vm, w, frame, q, Apply(e, |vm.rs|, |vm.ts|, |vm.ps|, w, Builtin(p), args));
      n := 1;
    } else {
      n := SimApply(e, vm, w, frame, Builtin(p), args, pc, q);
    }
  }

  lemma {:induction false} SimSelf(e: Env, vm: Vm, scope: Scope, es: seq<Ast>, q: nat) returns (n: nat)
    requires Good(e, vm) && es != [] && ShapeOf(e.ct, es) == ShSelf
    requires ReadsList(e.ct, CodeHere(e, vm), scope, vm.ip, es) == Some(q)
    requires |ScopeAfterList(e.ct, scope, es)| <= vm.nLocals
    ensures Leads(e, vm, n, q, EvalList(e, Here(vm), |vm.ps|, scope, vm.w, Locals(vm), es))
    decreases Left(|vm.rs|), 1, es, |es|
  {
    hide Run, Throw, CodeOf, ReadsAll, EvalAll, Op1, CallSelf;
    OnlyLambdas(e.ct, vm.fn);
    var p1 := ReadsAll(e.ct, CodeHere(e, vm), scope, vm.ip, es, 1).value;
    AtSelf(e, vm);
    n := SimAll(e, vm, vm.w, Locals(vm), [], scope, es, 1, vm.ip, p1);
    var r := EvalAll(e, Here(vm), |vm.ps|, scope, vm.w, Locals(vm), es, 1);
    if r.out.Vals? {
      assert [] + r.out.vs == r.out.vs;
      var m := SimSelfCall(e, vm, r.w, r.frame, r.out.vs, p1, q);
      RunAdd(e, Running(vm), n, m);
      n := n + m;
    }
  }

  lemma {:induction false} SimSelfCall(e: Env, vm: Vm, w: World, frame: seq<Slot>, args: seq<Value>, pc: nat, q: nat)
    returns (n: nat)
    requires Good(e, vm) && |frame| == vm.nLocals && |vm.ps| + |args| <= VM_STACK_SIZE
    requires Op1(CodeHere(e, vm), pc, OP_CALLS, |args|) == Some(q)
    requires vm.fn.Lam?
    ensures var c := CallSelf(e, Here(vm), |vm.ps| + |args|, w, args);
            && Run(e, Running(At(vm, w, frame, args, pc)), n) == After(vm, q, Res(c.w, frame, c.out))
            && (c.out.Ok? ==> |vm.ps| < VM_STACK_SIZE)
    decreases Left(|vm.rs|), 0, 1
  {
    hide Run, Throw, CodeOf, Op1, RunBody;
    FrameSize(e.ct, vm.fn);
    var nl := vm.nLocals;
    var u := At(vm, w, frame, args, pc);
    AtGood(e, vm, w, frame, args, pc);
    StepArg(e, u, OP_CALLS, |args|, q);
    n := 1;
    if |vm.rs| >= VM_STACK_SIZE || |vm.ps| + |args| + nl >= VM_STACK_SIZE {
      ThrowAt(e, vm, w, frame, args, q, ZERO);
    } else {
      var v := At(vm, w, frame, [], q);
      AtGood(e, vm, w, frame, [], q);
      assert u.ps == v.ps + Filled(args) by { assert Filled([]) == []; }
      var c := Ctx(None, v.fp, v.ip);
      var m := SimFrame(e, v, c, vm.fn, args);
      RunAdd(e, Running(u), 1, m);
      n := 1 + m;
      FinishAt(e, vm, w, frame, q, RunBody(e, Place(vm.fn, |vm.rs| + 1, |vm.ts|), |vm.ps|, w, args));
    }
  }

  lemma {:induction false} SimTry(e: Env, vm: Vm, scope: Scope, es: seq<Ast>, q: nat) returns (n: nat)
    requires Good(e, vm) && |es| == 3 && ShapeOf(e.ct, es) == ShTry
    requires ReadsTry(e.ct, CodeHere(e, vm), scope, vm.ip, es) == Some(q)
    requires |ScopeAfterList(e.ct, scope, es)| <= vm.nLocals
    ensures Leads(e, vm, n, q, EvalTry(e, Here(vm), |vm.ps|, scope, vm.w, Locals(vm), es))
    decreases Left(|vm.rs|), 1, es, |es|
  {
    hide Run, Throw, CodeOf, Reads, Eval, Jump, Apply, After;
    var k := CodeHere(e, vm);
    var p1 := Reads(e.ct, k, scope + [None], vm.ip + 3, es[1]).value;
    StepJump(e, vm, OP_TRAP, p1 + 4);
    n := 1;
    if |vm.ts| >= VM_TRAP_SIZE {
      PushHere(e, vm, vm.ip, ZERO);
      AfterErr(vm, vm.ip, q, Res(vm.w, Locals(vm), LIMIT));
    } else {
      var t := vm.(ip := vm.ip + 3, ts := vm.ts + [Trap(|vm.rs|, |vm.ps|, p1 + 4, vm.fn, vm.fp, vm.nLocals)]);
      var m := SimTrapped(e, vm, t, scope, es, q, p1);
      RunAdd(e, Running(vm), n, m);
      n := n + m;
    }
  }

  /** What the layout of a guarded form says. */
  lemma TryParts(e: Env, vm: Vm, scope: Scope, es: seq<Ast>, q: nat, p1: nat)
    requires Good(e, vm) && |es| == 3 && ShapeOf(e.ct, es) == ShTry
    requires ReadsTry(e.ct, CodeHere(e, vm), scope, vm.ip, es) == Some(q)
    requires Reads(e.ct, CodeHere(e, vm), scope + [None], vm.ip + 3, es[1]) == Some(p1)
    requires |ScopeAfterList(e.ct, scope, es)| <= vm.nLocals
    ensures |scope| < vm.nLocals && |ScopeAfter(e.ct, scope + [None], es[1])| <= vm.nLocals
    ensures Op(CodeHere(e, vm), p1, OP_TRAP_END) == Some(p1 + 1) && Jump(CodeHere(e, vm), p1 + 1, OP_JMP) == Some(q)
  {
    hide CodeOf, Reads, ScopeAfter;
  }

  lemma EvalTryIs(e: Env, p: Place, sp: nat, scope: Scope, w: World, frame: seq<Slot>, es: seq<Ast>)
    requires |es| == 3 && ShapeOf(e.ct, es) == ShTry && |ScopeAfterList(e.ct, scope, es)| <= |frame|
             && p.tp < VM_TRAP_SIZE
    ensures |scope| < |frame| && |ScopeAfter(e.ct, scope + [None], es[1])| <= |frame|
    ensures var r := Eval(e, p.(tp := p.tp + 1), sp, scope + [None], w, frame, es[1]);
            EvalTry(e, p, sp, scope, w, frame, es) ==
            if r.out.Ok? then r
            else if sp >= VM_STACK_SIZE then Res(r.w, r.frame, LIMIT)
            else Handled(e, p, sp, ScopeAfter(e.ct, scope + [None], es[1]), |scope|, r.w, r.frame, r.out.payload, es[2])
  {
    hide Eval, Apply, ScopeAfter;
  }

  /** The body of a `try`, its trap set. */
  lemma {:induction false} SimTrapped(e: Env, vm: Vm, t: Vm, scope: Scope, es: seq<Ast>, q: nat, p1: nat)
    returns (n: nat)
    requires Good(e, vm) && |es| == 3 && ShapeOf(e.ct, es) == ShTry && |vm.ts| < VM_TRAP_SIZE
    requires ReadsTry(e.ct, CodeHere(e, vm), scope, vm.ip, es) == Some(q)
    requires Reads(e.ct, CodeHere(e, vm), scope + [None], vm.ip + 3, es[1]) == Some(p1)
    requires |ScopeAfterList(e.ct, scope, es)| <= vm.nLocals
    requires t == vm.(ip := vm.ip + 3, ts := vm.ts + [Trap(|vm.rs|, |vm.ps|, p1 + 4, vm.fn, vm.fp, vm.nLocals)])
    ensures vm.fp + vm.nLocals <= |vm.ps|
    ensures var r := EvalTry(e, Here(vm), |vm.ps|, scope, vm.w, Locals(vm), es);
            Run(e, Running(t), n) == After(vm, q, r) && (r.out.Ok? ==> |vm.ps| < VM_STACK_SIZE)
    decreases Left(|vm.rs|), 1, es, 2
  {
    hide Run, Throw, CodeOf, Reads, Eval, Jump, Apply, EvalTry, Handled, ReadsTry, ScopeAfterList;
    TryParts(e, vm, scope, es, q, p1);
    EvalTryIs(e, Here(vm), |vm.ps|, scope, vm.w, Locals(vm), es);
    var s0 := scope + [None];
    n := SimExpr(e, t, s0, es[1], p1);
    var r := Eval(e, Here(t), |vm.ps|, s0, vm.w, Locals(vm), es[1]);
    var m;
    if r.out.Ok? {
      m := SimTrapEnd(e, vm, t, r.w, r.frame, r.out.v, p1, q);
      RunAdd(e, Running(t), n, m);
      n := n + m;
    } else {
      m := SimCaught(e, vm, t, scope, es, r.w, r.frame, r.out.payload, q, p1);
      RunAdd(e, Running(t), n, m);
      n := n + m;
    }
  }

  /** The error of a guarded body thrown: the trap takes it and the handler runs. */
  lemma {:induction false} SimCaught(e: Env, vm: Vm, t: Vm, scope: Scope, es: seq<Ast>, w: World, frame: seq<Slot>,
                                     payload: Value, q: nat, p1: nat) returns (n: nat)
    requires Good(e, vm) && |es| == 3 && ShapeOf(e.ct, es) == ShTry && |frame| == vm.nLocals
    requires ReadsTry(e.ct, CodeHere(e, vm), scope, vm.ip, es) == Some(q)
    requires Reads(e.ct, CodeHere(e, vm), scope + [None], vm.ip + 3, es[1]) == Some(p1)
    requires |ScopeAfterList(e.ct, scope, es)| <= vm.nLocals
    requires t == vm.(ip := vm.ip + 3, ts := vm.ts + [Trap(|vm.rs|, |vm.ps|, p1 + 4, vm.fn, vm.fp, vm.nLocals)])
    ensures |scope| < |frame|
    ensures Run(e, Throw(At(t, w, frame, [], 0), payload), n) ==
            if |vm.ps| >= VM_STACK_SIZE then Throw(At(vm, w, frame, [], 0), ZERO)
            else After(vm, q, Handled(e, Here(vm), |vm.ps|, ScopeAfter(e.ct, scope + [None], es[1]), |scope|, w, frame,
                                      payload, es[2]))
    decreases Left(|vm.rs|), 1, es, 1, 1
  {
    hide Run, Throw, CodeOf, Reads, Eval, Jump, Apply, Handled, At, After;
    Caught(e, vm, t, w, frame, payload, p1 + 4);
    n := 0;
    if |vm.ps| < VM_STACK_SIZE {
      n := SimHandler(e, vm, scope, es, w, frame, payload, p1 + 4, q);
    } else {
      RunNone(e, Throw(At(t, w, frame, [], 0), payload));
    }
  }

  lemma RunNone(e: Env, s: State)
    ensures Run(e, s, 0) == s
  {
  }

  /** The body succeeded: drop the trap, jump over the handler. */
  lemma SimTrapEnd(e: Env, vm: Vm, t: Vm, w: World, frame: seq<Slot>, v: Value, p1: nat, q: nat) returns (n: nat)
    requires Good(e, vm) && Good(e, t) && |frame| == vm.nLocals && |vm.ps| < VM_STACK_SIZE
    requires |t.ts| == |vm.ts| + 1 && vm == t.(ip := vm.ip, ts := t.ts[..|vm.ts|])
    requires Op(CodeHere(e, vm), p1, OP_TRAP_END) == Some(p1 + 1)
    requires Jump(CodeHere(e, vm), p1 + 1, OP_JMP) == Some(q)
    ensures Run(e, Running(At(t, w, frame, [v], p1)), n) == Running(At(vm, w, frame, [v], q))
  {
    hide Run, Throw, CodeOf, Op, Jump;
    var u := At(t, w, frame, [v], p1);
    AtGood(e, t, w, frame, [v], p1);
    StepOp(e, u, OP_TRAP_END, p1 + 1);
    var u2 := At(vm, w, frame, [v], p1 + 1);
    AtGood(e, vm, w, frame, [v], p1 + 1);
    StepJump(e, u2, OP_JMP, q);
    RunAdd(e, Running(u), 1, 1);
    n := 2;
  }

  /** The body failed, at any call depth: back in this frame, with the payload pushed. */
  lemma Caught(e: Env, vm: Vm, t: Vm, w: World, frame: seq<Slot>, payload: Value, handler: nat)
    requires Good(e, vm) && |frame| == vm.nLocals
    requires t == vm.(ip := t.ip, ts := vm.ts + [Trap(|vm.rs|, |vm.ps|, handler, vm.fn, vm.fp, vm.nLocals)])
    ensures Throw(At(t, w, frame, [], 0), payload) ==
            if |vm.ps| >= VM_STACK_SIZE then Throw(At(vm, w, frame, [], 0), ZERO)
            else Running(At(vm, w, frame, [payload], handler))
  {
    hide Throw, Unwound;
    var a := At(t, w, frame, [], 0);
    var b := At(vm, w, frame, [], handler);
    Unwinds(e, vm, t, w, frame, handler);
    ThrowUnwinds(a, payload);
    assert At(vm, w, frame, [payload], handler) == b.(ps := b.ps + [Some(payload)]) by {
      assert Filled([]) == [] && Filled([payload]) == [Some(payload)];
    }
    ThrowAt(e, vm, w, frame, [], handler, ZERO);
  }

  lemma ThrowUnwinds(a: Vm, payload: Value)
    requires a.ts != []
    ensures var u := Unwound(a);
            Throw(a, payload) ==
            if |u.ps| >= VM_STACK_SIZE then Throw(u, ZERO) else Running(u.(ps := u.ps + [Some(payload)]))
  {
  }

  lemma Unwinds(e: Env, vm: Vm, t: Vm, w: World, frame: seq<Slot>, handler: nat)
    requires Good(e, vm) && |frame| == vm.nLocals
    requires t == vm.(ip := t.ip, ts := vm.ts + [Trap(|vm.rs|, |vm.ps|, handler, vm.fn, vm.fp, vm.nLocals)])
    ensures var b := At(vm, w, frame, [], handler);
            At(t, w, frame, [], 0).ts != [] && Unwound(At(t, w, frame, [], 0)) == b && |b.ps| == |vm.ps|
  {
    var a := At(t, w, frame, [], 0);
    assert a.ts[..|a.ts| - 1] == vm.ts;
    assert Filled([]) == [] && a.ps[..|vm.ps|] == a.ps && a.rs[..|vm.rs|] == a.rs;
  }

  /** Stash the payload, evaluate the handler, call it on the payload. */
  lemma {:induction false} SimHandler(e: Env, vm: Vm, scope: Scope, es: seq<Ast>, w: World, frame: seq<Slot>,
                                      payload: Value, handler: nat, q: nat) returns (n: nat)
    requires Good(e, vm) && |frame| == vm.nLocals && |vm.ps| < VM_STACK_SIZE && |es| == 3
    requires var s1 := ScopeAfter(e.ct, scope + [None], es[1]);
             var k := CodeHere(e, vm);
             && |ScopeAfter(e.ct, s1, es[2])| <= vm.nLocals
             && Op1(k, handler, OP_STOREENV, |scope|) == Some(handler + 2)
             && Reads(e.ct, k, s1, handler + 2, es[2]).Some?
             && var p4 := Reads(e.ct, k, s1, handler + 2, es[2]).value;
                Op1(k, p4, OP_LOADENV, |scope|) == Some(p4 + 2) && Op1(k, p4 + 2, OP_CALLF, 1) == Some(q)
    requires |scope| < vm.nLocals
    ensures var s1 := ScopeAfter(e.ct, scope + [None], es[1]);
            Run(e, Running(At(vm, w, frame, [payload], handler)), n) ==
            After(vm, q, Handled(e, Here(vm), |vm.ps|, s1, |scope|, w, frame, payload, es[2]))
    decreases Left(|vm.rs|), 1, es, 1, 0
  {
    hide Run, Throw, CodeOf, Reads, Eval, Op1, Apply, ScopeAfter;
    var slot := |scope|;
    var s1 := ScopeAfter(e.ct, scope + [None], es[1]);
    var start := Running(At(vm, w, frame, [payload], handler));
    var p4 := Reads(e.ct, CodeHere(e, vm), s1, handler + 2, es[2]).value;
    AtGood(e, vm, w, frame, [payload], handler);
    StepArg(e, At(vm, w, frame, [payload], handler), OP_STOREENV, slot, handler + 2);
    PopAt(e, vm, w, frame, [payload], 1, handler + 2);
    assert [payload][..0] == [] && [payload][0..] == [payload];
    StoreAt(e, vm, w, frame, [], handler + 2, slot, payload);
    var frame1 := frame[slot := Some(payload)];
    n := 1;
    var m := SimArm(e, vm, w, frame1, s1, es[2], handler + 2, p4);
    RunAdd(e, start, n, m);
    n := n + m;
    var h := Eval(e, Here(vm), |vm.ps|, s1, w, frame1, es[2]);
    if h.out.Ok? {
      m := SimHandlerCall(e, vm, h.w, h.frame, h.out.v, slot, p4, q);
      RunAdd(e, start, n, m);
      n := n + m;
    }
  }

  /** What happens once the payload has been caught. */
  ghost function Handled(e: Env, p: Place, sp: nat, scope: Scope, slot: nat, w: World, frame: seq<Slot>,
                         payload: Value, a: Ast): Res
    requires slot < |frame| && |ScopeAfter(e.ct, scope, a)| <= |frame|
  {
    var h := Eval(e, p, sp, scope, w, frame[slot := Some(payload)], a);
    if h.out.Err? then h
    else if sp + 1 >= VM_STACK_SIZE then Res(h.w, h.frame, LIMIT)
    else
      var held := h.frame[slot];
      var c := Apply(e, p.rp, p.tp, sp, h.w, h.out.v, [if held.Some? then held.value else ZERO]);
      Res(c.w, h.frame, c.out)
  }

  lemma {:induction false} SimHandlerCall(e: Env, vm: Vm, w: World, frame: seq<Slot>, f: Value, slot: nat, pc: nat,
                                          q: nat) returns (n: nat)
    requires Good(e, vm) && |frame| == vm.nLocals && |vm.ps| < VM_STACK_SIZE && slot < |frame|
    requires Op1(CodeHere(e, vm), pc, OP_LOADENV, slot) == Some(pc + 2)
    requires Op1(CodeHere(e, vm), pc + 2, OP_CALLF, 1) == Some(q)
    ensures var arg := if frame[slot].Some? then frame[slot].value else ZERO;
            var c := Apply(e, |vm.rs|, |vm.ts|, |vm.ps|, w, f, [arg]);
            Run(e, Running(At(vm, w, frame, [f], pc)), n) ==
            if |vm.ps| + 1 >= VM_STACK_SIZE then Throw(At(vm, w, frame, [], 0), ZERO)
            else After(vm, q, Res(c.w, frame, c.out))
    decreases Left(|vm.rs|), 0, 2
  {
    hide Run, Throw, CodeOf, Op1, Apply, After, At;
    var arg := if frame[slot].Some? then frame[slot].value else ZERO;
    LoadAt(e, vm, w, frame, f, slot, pc);
    n := 1;
    if |vm.ps| + 1 < VM_STACK_SIZE {
      var m := SimApply(e, vm, w, frame, f, [arg], pc + 2, q);
      RunAdd(e, Running(At(vm, w, frame, [f], pc)), 1, m);
      n := 1 + m;
    }
  }

  lemma LoadAt(e: Env, vm: Vm, w: World, frame: seq<Slot>, f: Value, slot: nat, pc: nat)
    requires Good(e, vm) && |frame| == vm.nLocals && |vm.ps| < VM_STACK_SIZE && slot < |frame|
    requires Op1(CodeHere(e, vm), pc, OP_LOADENV, slot) == Some(pc + 2)
    ensures var arg := if frame[slot].Some? then frame[slot].value else ZERO;
            Run(e, Running(At(vm, w, frame, [f], pc)), 1) ==
            if |vm.ps| + 1 >= VM_STACK_SIZE then Throw(At(vm, w, frame, [], 0), ZERO)
            else Running(At(vm, w, frame, [f] + [arg], pc + 2))
  {
    hide Run, Throw, CodeOf, Op1, Push, CanPop, Top, Drop, At, Locals, Here;
    var u := At(vm, w, frame, [f], pc);
    AtGood(e, vm, w, frame, [f], pc);
    AtParts(vm, w, frame, [f], pc, pc + 2);
    PopAt(e, vm, w, frame, [f], 1, pc);
    assert u.ps[vm.fp + slot] == frame[slot];
    StepLoad(e, u, slot, pc + 2);
    PushAt(e, vm, w, frame, [f], pc + 2, if frame[slot].Some? then frame[slot].value else ZERO);
  }

  // ----- the main result -----

  ghost function Outcome(r: Reply): State {
    match r.out
    case Ok(v) => Returned(r.w, v)
    case Err(p) => Raised(r.w, p)
  }

  /** A compiled lambda, run by the machine from an empty stack, halts with exactly
      what direct evaluation of its body gives: the same value and world, or the same error. */
  lemma {:induction false} VmMatchesDirectEvaluation(e: Env, w: World, fn: Value, args: seq<Value>) returns (n: nat)
    requires CodeOf(e.ct, fn).Some?
    ensures Run(e, Start(e, w, fn, args), n) == Outcome(Call(e, w, fn, args))
  {
    hide Run, CodeOf, RunBody, Start;
    OnlyLambdas(e.ct, fn);
    if |args| == |fn.params| {
      n := SimTop(e, w, fn, args);
    } else {
      n := 0;
      StartArity(e, w, fn, args);
      Still(e, Start(e, w, fn, args));
    }
  }

  lemma StartArity(e: Env, w: World, fn: Value, args: seq<Value>)
    requires CodeOf(e.ct, fn).Some? && |args| != |fn.params|
    ensures Start(e, w, fn, args) == Raised(w, ErrObj(Arity))
  {
  }

  lemma {:induction false} SimTop(e: Env, w: World, fn: Value, args: seq<Value>) returns (n: nat)
    requires CodeOf(e.ct, fn).Some? && fn.Lam? && |args| == |fn.params|
    ensures Run(e, Start(e, w, fn, args), n) == Outcome(RunBody(e, Place(fn, 0, 0), 0, w, args))
  {
    hide Run, CodeOf, ReadsSeq, EvalSeq, ScopeAfterAll, Push, Exec;
    FrameSize(e.ct, fn);
    CompiledReads(e.ct, fn);
    var k := CodeOf(e.ct, fn).value;
    var vm := Vm(fn, k.nLocals, 0, 0, Filled(args) + Unset(k.nLocals - |args|), [], [], w);
    assert Start(e, w, fn, args) == Running(vm);
    assert Locals(vm) == vm.ps && Good(e, vm);
    var p := ReadsSeq(e.ct, k, ParamScope(fn.params), 0, fn.body, 0, 0).value;
    if fn.body == [] {
      EmptySeq(e.ct, k, ParamScope(fn.params));
      n := SimHalt(e, vm, w, vm.ps, [], 0);
      AtSelf(e, vm);
    } else {
      n := SimSeq(e, vm, ParamScope(fn.params), fn.body, 0, p);
      var r := EvalSeq(e, Here(vm), |vm.ps|, ParamScope(fn.params), vm.w, Locals(vm), fn.body, 0);
      if r.out.Ok? {
        var m := SimHalt(e, vm, r.w, r.frame, [r.out.v], p);
        RunAdd(e, Running(vm), n, m);
        n := n + m;
      }
    }
  }

  /** The outermost return ends the run with the value on the stack. */
  lemma SimHalt(e: Env, vm: Vm, w: World, frame: seq<Slot>, v: seq<Value>, p: nat) returns (n: nat)
    requires Good(e, vm) && |frame| == vm.nLocals && |v| <= 1 && |vm.ps| + |v| <= VM_STACK_SIZE
    requires vm.rs == [] && |vm.ps| == vm.fp + vm.nLocals
    requires Op(CodeHere(e, vm), p, OP_RET) == Some(p + 1)
    ensures Run(e, Running(At(vm, w, frame, v, p)), n) == Returned(w, if v == [] then Null else v[0])
  {
    hide Run, CodeOf, Op, At, CanPop, Top, Drop, Exec, Return, Locals, Here;
    var u := At(vm, w, frame, v, p);
    AtGood(e, vm, w, frame, v, p);
    AtParts(vm, w, frame, v, p, p);
    PopAt(e, vm, w, frame, v, |v|, p);
    assert v[0..] == v;
    LastReturn(e, u, v);
    n := 1;
  }

  lemma LastReturn(e: Env, u: Vm, v: seq<Value>)
    requires Good(e, u) && u.rs == [] && |v| <= 1 && |u.ps| == u.fp + u.nLocals + |v| && CanPop(u, |v|)
             && Top(u, |v|) == v
    requires Op(CodeOf(e.ct, u.fn).value, u.ip, OP_RET) == Some(u.ip + 1)
    ensures Run(e, Running(u), 1) == Returned(u.w, if v == [] then Null else v[0])
  {
    hide Run, CodeOf;
    StepOp(e, u, OP_RET, u.ip + 1);
  }
}
