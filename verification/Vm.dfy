/** The machine as it runs: fixed arrays for the value, return and trap stacks, three
    stack pointers, and a dispatch loop. Each method performs what the function of the
    machine's state of the same name says. */
module VmObject {
  import opened Bytes
  import opened Options
  import opened Lang
  import opened Bytecode
  import opened Layout
  import opened DirectEval
  import M = Machine

  const LOADS: set<byte> := {OP_DUP, OP_LOADCONST, OP_LOADCONST_W, OP_RESOLVE, OP_RESOLVE_W}

  class Vm {
    var fn: Value
    var nLocals: nat
    var fp: nat
    var ip: int
    const ps: array<Slot>
    var sp: nat
    const rs: array<M.Ctx>
    var rp: nat
    const ts: array<M.Trap>
    var tp: nat
    var w: World
    /** How the run ended, once it has. */
    var ended: Option<M.State>

    ghost predicate Valid()
      reads this
    {
      && ps.Length == VM_STACK_SIZE && rs.Length == VM_STACK_SIZE && ts.Length == VM_TRAP_SIZE
      && sp <= VM_STACK_SIZE && rp <= VM_STACK_SIZE && tp <= VM_TRAP_SIZE
      && ps as object != rs && ps as object != ts && rs as object != ts
      && (ended.Some? ==> !ended.value.Running?)
    }

    ghost function Now(): M.Vm
      requires Valid()
      reads this, ps, rs, ts
    {
      M.Vm(fn, nLocals, fp, ip, ps[..sp], rs[..rp], ts[..tp], w)
    }

    ghost function State(): M.State
      requires Valid()
      reads this, ps, rs, ts
    {
      if ended.Some? then ended.value else M.Running(Now())
    }

    constructor (lambda: Value, locals: nat, args: seq<Value>, world: World)
      requires |args| <= locals <= VM_STACK_SIZE
      ensures Valid() && ended.None?
      ensures Now() == M.Vm(lambda, locals, 0, 0, Filled(args) + Unset(locals - |args|), [], [], world)
      ensures fresh(ps) && fresh(rs) && fresh(ts)
    {
      fn, nLocals, fp, ip, w, ended := lambda, locals, 0, 0, world, None;
      ps := new Slot[VM_STACK_SIZE](i requires 0 <= i => if i < |args| then Some(args[i]) else None);
      rs := new M.Ctx[VM_STACK_SIZE](_ => M.Ctx(None, 0, 0));
      ts := new M.Trap[VM_TRAP_SIZE](_ => M.Trap(0, 0, 0, Null, 0, 0));
      sp, rp, tp := locals, 0, 0;
    }

    method End(s: M.State)
      requires Valid() && ended.None? && !s.Running?
      modifies this`ended
      ensures Valid() && State() == s
    {
      ended := Some(s);
    }

    /** Back to where the innermost trap was set. */
    method Unwind()
      requires Valid() && ended.None? && tp > 0
      modifies this`tp, this`sp, this`rp, this`fn, this`fp, this`ip, this`nLocals
      ensures Valid() && ended.None? && Now() == M.Unwound(old(Now()))
      ensures tp == old(tp) - 1
    {
      ghost var before := Now();
      tp := tp - 1;
      var t := ts[tp];
      assert t == before.ts[|before.ts| - 1];
      if rp > t.rp { rp := t.rp; }
      if sp > t.sp { sp := t.sp; }
      fn, fp, nLocals, ip := t.fn, t.fp, t.nLocals, t.ip;
      assert ps[..sp] == before.ps[..M.Min(|before.ps|, t.sp)];
      assert rs[..rp] == before.rs[..M.Min(|before.rs|, t.rp)];
      assert ts[..tp] == before.ts[..|before.ts| - 1];
    }

    method PushUnchecked(v: Value)
      requires Valid() && ended.None? && sp < VM_STACK_SIZE
      modifies this`sp, ps
      ensures Valid() && Now() == old(Now()).(ps := old(Now()).ps + [Some(v)])
    {
      ps[sp] := Some(v);
      sp := sp + 1;
      assert ps[..sp] == old(ps[..sp]) + [Some(v)];
    }

    /** Unwinds trap by trap until one can take the payload, or none is left. */
    method Throw(payload: Value)
      requires Valid() && ended.None?
      modifies this, ps
      ensures Valid() && State() == M.Throw(old(Now()), payload)
    {
      hide M.Unwound;
      var p := payload;
      while tp > 0
        invariant Valid() && ended.None?
        invariant M.Throw(Now(), p) == M.Throw(old(Now()), payload)
        decreases tp
      {
        Unwind();
        if sp < VM_STACK_SIZE {
          PushUnchecked(p);
          return;
        }
        p := ZERO;
      }
      End(M.Raised(w, p));
    }

    method Push(v: Value)
      requires Valid() && ended.None?
      modifies this, ps
      ensures Valid() && State() == M.Push(old(Now()), v)
    {
      if sp >= VM_STACK_SIZE {
        Throw(ZERO);
      } else {
        PushUnchecked(v);
      }
    }

    /** Takes the `n` topmost values off the stack. */
    method PopMany(n: nat) returns (vs: seq<Value>)
      requires Valid() && ended.None? && M.CanPop(Now(), n)
      modifies this`sp
      ensures Valid() && Now() == M.Drop(old(Now()), n) && vs == M.Top(old(Now()), n)
    {
      vs := [];
      ghost var before := Now();
      for i := 0 to n
        invariant Valid() && ended.None? && sp == old(sp) - i
        invariant |vs| == i && forall j :: 0 <= j < i ==> vs[j] == ps[old(sp) - i + j].value
      {
        assert before.ps[old(sp) - i - 1] == ps[sp - 1];
        sp := sp - 1;
        vs := [ps[sp].value] + vs;
      }
      assert ps[..sp] == before.ps[..|before.ps| - n];
      assert vs == M.Top(before, n);
    }

    method CanPop(n: nat) returns (b: bool)
      requires Valid()
      ensures b == M.CanPop(Now(), n)
    {
      if sp < n { return false; }
      for i := sp - n to sp
        invariant forall j :: sp - n <= j < i ==> ps[j].Some?
      {
        if ps[i].None? {
          assert Now().ps[i].None?;
          return false;
        }
      }
      return true;
    }

    method Finish(r: Reply)
      requires Valid() && ended.None?
      modifies this, ps
      ensures Valid() && State() == M.Finish(old(Now()), r)
    {
      w := r.w;
      match r.out
      case Ok(v) => Push(v);
      case Err(p) => Throw(p);
    }

    method PushConst(a: Ast)
      requires Valid() && ended.None?
      modifies this, ps
      ensures Valid() && State() == M.PushConst(old(Now()), a)
    {
      match a
      case Lit(v) => Push(v);
      case List(es) => Push(Form(es));
      case Name(_) => End(M.Stuck);
    }

    method Resolve(e: Env, a: Ast)
      requires Valid() && ended.None?
      modifies this, ps
      ensures Valid() && State() == M.Resolve(e, old(Now()), a)
    {
      if !a.Name? { End(M.Stuck); return; }
      var v := EnvGet(e.ct, w, a.s);
      if v.None? { Throw(ZERO); } else { Push(v.value); }
    }

    method Jump(op: byte, target: int)
      requires Valid() && ended.None?
      modifies this, ps, ts
      ensures Valid() && State() == M.ExecJump(old(Now()), op, target)
    {
      if op == OP_JMP {
        ip := target;
      } else if op == OP_JMPF {
        var can := CanPop(1);
        if !can { End(M.Stuck); return; }
        var c := PopMany(1);
        if Truthy(c[0]) { ip := ip + 3; } else { ip := target; }
      } else if tp >= VM_TRAP_SIZE {
        Throw(ZERO);
      } else {
        ts[tp] := M.Trap(rp, sp, target, fn, fp, nLocals);
        tp := tp + 1;
        ip := ip + 3;
        assert ts[..tp] == old(ts[..tp]) + [M.Trap(rp, sp, target, fn, fp, nLocals)];
      }
    }

    /** A frame for a compiled lambda, or a call on the spot. */
    method CallValue(e: Env, f: Value, args: seq<Value>)
      requires Valid() && ended.None?
      modifies this, ps, rs
      ensures Valid() && State() == M.CallValue(e, old(Now()), f, args)
    {
      hide CodeOf, M.Finish, M.Throw;
      match f
      case Lam(params, body) => CallLambda(e, f, args);
      case Builtin(p) => Finish(ApplyBuiltin(e, w, p, args));
      case _ => Throw(ErrObj(Type));
    }

    method CallLambda(e: Env, f: Value, args: seq<Value>)
      requires Valid() && ended.None? && f.Lam?
      modifies this, ps, rs
      ensures Valid() && State() == M.CallValue(e, old(Now()), f, args)
    {
      hide CodeOf, M.Finish, M.Throw;
      var code := CodeOf(e.ct, f);
      if code.None? { Finish(e.host.walk(w, f, args)); return; }
      var n := code.value.nLocals;
      if rp >= VM_STACK_SIZE || sp + n >= VM_STACK_SIZE { Throw(ZERO); return; }
      if |args| != |f.params| || |args| > n { Throw(ErrObj(Arity)); return; }
      EnterLambda(f, args, n);
    }

    /** The caller's frame pushed, the callee's begun. */
    method EnterLambda(f: Value, args: seq<Value>, n: nat)
      requires Valid() && ended.None? && rp < VM_STACK_SIZE && sp + n < VM_STACK_SIZE && |args| <= n
      modifies this, ps, rs
      ensures Valid() && ended.None?
      ensures var vm := old(Now());
              Now() == M.Vm(f, n, |vm.ps|, 0, vm.ps + Filled(args) + Unset(n - |args|),
                            vm.rs + [M.Ctx(Some(vm.fn), vm.fp, if vm.ip >= 0 then vm.ip else 0)], vm.ts, vm.w)
    {
      PushFrame(M.Ctx(Some(fn), fp, if ip >= 0 then ip else 0));
      fn, nLocals, fp, ip := f, n, sp, 0;
      Extend(args, n);
    }

    method PushFrame(frame: M.Ctx)
      requires Valid() && ended.None? && rp < VM_STACK_SIZE
      modifies this`rp, rs
      ensures Valid() && ended.None? && Now() == old(Now()).(rs := old(Now()).rs + [frame])
    {
      rs[rp] := frame;
      rp := rp + 1;
      assert rs[..rp] == old(rs[..rp]) + [frame];
    }

    /** New locals on top of the stack: the arguments, then unset slots. */
    method Extend(args: seq<Value>, n: nat)
      requires Valid() && ended.None? && |args| <= n && sp + n <= VM_STACK_SIZE
      modifies this`sp, ps
      ensures Valid() && sp == old(sp) + n
      ensures ps[..sp] == old(ps[..sp]) + Filled(args) + Unset(n - |args|)
    {
      ghost var base := ps[..sp];
      var start := sp;
      for i := 0 to n
        invariant Valid() && ended.None? && sp == start + i
        invariant ps[..start] == base
        invariant forall j :: start <= j < sp ==> ps[j] == if j - start < |args| then Some(args[j - start]) else None
      {
        ps[sp] := if i < |args| then Some(args[i]) else None;
        sp := sp + 1;
      }
      ghost var locals := Filled(args) + Unset(n - |args|);
      forall j | 0 <= j < n
        ensures ps[start..sp][j] == locals[j]
      {
        assert ps[start..sp][j] == ps[start + j] == if j < |args| then Some(args[j]) else None;
        if j < |args| {
          assert locals[j] == Filled(args)[j] == Some(args[j]);
        } else {
          assert locals[j] == Unset(n - |args|)[j - |args|] == None;
        }
      }
      assert ps[start..sp] == locals;
      assert ps[..sp] == base + locals;
    }

    method SelfCall(argc: byte)
      requires Valid() && ended.None?
      modifies this, ps, rs
      ensures Valid() && State() == M.SelfCall(old(Now()), argc)
    {
      if rp >= VM_STACK_SIZE || sp + nLocals >= VM_STACK_SIZE { Throw(ZERO); return; }
      if sp < argc { End(M.Stuck); return; }
      var frame := M.Ctx(None, fp, if ip >= 0 then ip else 0);
      rs[rp] := frame;
      rp := rp + 1;
      assert rs[..rp] == old(rs[..rp]) + [frame];
      fp, ip := sp - argc, 0;
      Extend([], if nLocals >= argc then nLocals - argc else 0);
      assert Filled([]) == [];
      assert old(ps[..sp]) + [] == old(ps[..sp]);
    }

    method Return(e: Env)
      requires Valid() && ended.None?
      modifies this, ps
      ensures Valid() && State() == M.Return(e, old(Now()))
    {
      hide M.Push, CodeOf;
      var fromStack := sp > fp + nLocals;
      var can := CanPop(1);
      if (fromStack && !can) || sp < fp { End(M.Stuck); return; }
      ghost var before := Now();
      var v := Null;
      if fromStack { v := ps[sp - 1].value; }
      assert v == if fromStack then M.Top(before, 1)[0] else Null;
      sp := fp;
      assert ps[..sp] == before.ps[..fp];
      if rp == 0 { End(M.Returned(w, v)); return; }
      PopFrame(e, v);
    }

    /** The caller's frame restored, the result pushed. */
    method PopFrame(e: Env, v: Value)
      requires Valid() && ended.None? && rp > 0
      modifies this, ps
      ensures Valid()
      ensures var b := old(Now());
              var c := b.rs[|b.rs| - 1];
              var u := b.(rs := b.rs[..|b.rs| - 1], fp := c.fp, ip := c.ip);
              State() == if c.fn.None? then M.Push(u, v)
                         else if CodeOf(e.ct, c.fn.value).None? then M.Stuck
                         else M.Push(u.(fn := c.fn.value, nLocals := CodeOf(e.ct, c.fn.value).value.nLocals), v)
    {
      hide M.Push, CodeOf;
      ghost var before := Now();
      rp := rp - 1;
      var c := rs[rp];
      assert c == before.rs[|before.rs| - 1] && rs[..rp] == before.rs[..|before.rs| - 1];
      fp, ip := c.fp, c.ip;
      if c.fn.Some? {
        var code := CodeOf(e.ct, c.fn.value);
        if code.None? { End(M.Stuck); return; }
        fn, nLocals := c.fn.value, code.value.nLocals;
      }
      Push(v);
    }

    method Store(slot: nat)
      requires Valid() && ended.None? && M.CanPop(Now(), 1) && slot < sp - 1
      modifies this`sp, ps
      ensures Valid()
      ensures Now() == M.Drop(old(Now()), 1).(ps := M.Drop(old(Now()), 1).ps[slot := Some(M.Top(old(Now()), 1)[0])])
    {
      ghost var before := Now();
      var v := PopMany(1);
      ps[slot] := Some(v[0]);
      assert ps[..sp] == M.Drop(before, 1).ps[slot := Some(v[0])];
    }

    /** Instructions with a one-byte operand. */
    method OperandOp(e: Env, op: byte, arg: byte)
      requires Valid() && ended.None?
      modifies this, ps, rs
      ensures Valid() && State() == M.ExecArg(e, old(Now()), op, arg)
    {
      hide M.Push, M.Finish, M.CallValue, M.SelfCall;
      if op == OP_LOADENV {
        if fp + arg < sp {
          var v := ps[fp + arg];
          Push(if v.Some? then v.value else ZERO);
        } else {
          End(M.Stuck);
        }
      } else if op == OP_STOREENV {
        var can := CanPop(1);
        if can && fp + arg < sp - 1 { Store(fp + arg); } else { End(M.Stuck); }
      } else if op == OP_CALLN || op == OP_CALLF {
        CallOp(e, op, arg);
      } else if op == OP_CALLS {
        SelfCall(arg);
      } else if op == OP_CALLD {
        Dynamic(e, arg);
      } else {
        End(M.Stuck);
      }
    }

    method CallOp(e: Env, op: byte, arg: byte)
      requires Valid() && ended.None? && (op == OP_CALLN || op == OP_CALLF)
      modifies this, ps, rs
      ensures Valid() && State() == M.ExecArg(e, old(Now()), op, arg)
    {
      hide M.Push, M.Finish, M.CallValue, M.SelfCall;
      var can := CanPop(arg + 1);
      if !can { End(M.Stuck); return; }
      ghost var before := Now();
      if op == OP_CALLN && !ps[sp - arg - 1].value.Builtin? {
        assert M.Top(before, arg + 1)[0] == ps[sp - arg - 1].value;
        End(M.Stuck);
        return;
      }
      assert M.Top(before, arg + 1)[0] == ps[sp - arg - 1].value;
      var vs := PopMany(arg + 1);
      if op == OP_CALLN { Finish(e.host.call(w, vs[0].p, vs[1..])); } else { CallValue(e, vs[0], vs[1..]); }
    }

    method Dynamic(e: Env, arg: byte)
      requires Valid() && ended.None?
      modifies this, ps
      ensures Valid() && State() == M.ExecArg(e, old(Now()), OP_CALLD, arg)
    {
      hide M.Push, M.Finish, M.CallValue, M.SelfCall;
      var can := CanPop(1);
      assert can ==> M.Top(Now(), 1)[0] == ps[sp - 1].value;
      if arg != 0 || !can || !ps[sp - 1].value.Form? { End(M.Stuck); return; }
      var v := PopMany(1);
      Finish(e.host.dyn(w, v[0].form));
    }

    /** The calls of known builtins, with one and with two arguments. */
    method Direct(e: Env, n: nat)
      requires Valid() && ended.None? && n >= 1
      modifies this, ps
      ensures Valid()
      ensures State() ==
              if M.CanPop(old(Now()), n) && M.Top(old(Now()), n)[0].Builtin?
              then M.CallBuiltin(e, M.Drop(old(Now()), n).(ip := old(ip) + 1), M.Top(old(Now()), n)[0].p,
                                 M.Top(old(Now()), n)[1..])
              else M.Stuck
    {
      hide M.Push, M.Finish;
      var can := CanPop(n);
      if !can { End(M.Stuck); return; }
      assert M.Top(Now(), n)[0] == ps[sp - n].value;
      if !ps[sp - n].value.Builtin? { End(M.Stuck); return; }
      var vs := PopMany(n);
      ip := ip + 1;
      Finish(e.host.call(w, vs[0].p, vs[1..]));
    }

    /** Instructions that push: a copy, a constant, a global. */
    method LoadOp(e: Env, k: Code, op: byte)
      requires Valid() && ended.None? && 0 <= ip < |k.code| && op in LOADS
      modifies this, ps
      ensures Valid() && State() == M.Exec(e, old(Now()), k, op)
    {
      hide M.Push, M.Resolve, M.PushConst;
      if op == OP_DUP {
        var can := CanPop(1);
        if !can { End(M.Stuck); return; }
        assert M.Top(Now(), 1)[0] == ps[sp - 1].value;
        var v := ps[sp - 1].value;
        ip := ip + 1;
        Push(v);
      } else if op == OP_LOADCONST || op == OP_LOADCONST_W {
        var o := Operand(k.code, ip, OP_LOADCONST, OP_LOADCONST_W);
        if o.None? || o.value.0 >= |k.consts| { End(M.Stuck); return; }
        ip := o.value.1;
        PushConst(k.consts[o.value.0]);
      } else {
        var o := Operand(k.code, ip, OP_RESOLVE, OP_RESOLVE_W);
        if o.None? || o.value.0 >= |k.consts| { End(M.Stuck); return; }
        ip := o.value.1;
        Resolve(e, k.consts[o.value.0]);
      }
    }

    /** One turn of the dispatch loop. */
    method Step(e: Env)
      requires Valid() && ended.None?
      modifies this, ps, rs, ts
      ensures Valid() && State() == M.Step(e, old(Now()))
    {
      hide CodeOf, M.Push, M.Finish, M.Resolve, M.PushConst, M.ExecArg, M.ExecJump, M.Return, M.CallBuiltin, Target;
      var code := CodeOf(e.ct, fn);
      if code.None? || ip < 0 || ip >= |code.value.code| { End(M.Stuck); return; }
      var k := code.value;
      var op := k.code[ip];
      if op == OP_RET {
        Return(e);
      } else if op == OP_POP {
        Discard();
      } else if op in LOADS {
        LoadOp(e, k, op);
      } else if op == OP_CALL1 {
        Direct(e, 2);
      } else if op == OP_CALL2 {
        Direct(e, 3);
      } else if op == OP_TRAP_END {
        ip := ip + 1;
        if tp > 0 { tp := tp - 1; }
        assert ts[..tp] == if old(ts[..tp]) == [] then [] else old(ts[..tp])[..|old(ts[..tp])| - 1];
      } else if op == OP_JMP || op == OP_JMPF || op == OP_TRAP {
        if ip + 2 >= |k.code| { End(M.Stuck); return; }
        Jump(op, Target(k.code, ip + 1));
      } else if ip + 1 >= |k.code| {
        End(M.Stuck);
      } else {
        var arg := k.code[ip + 1];
        ip := ip + 2;
        OperandOp(e, op, arg);
      }
    }

    /** Pops a temporary, never a local. */
    method Discard()
      requires Valid() && ended.None?
      modifies this`sp, this`ip
      ensures Valid() && ended.None?
      ensures var u := if |old(Now()).ps| > fp + nLocals then M.Drop(old(Now()), 1) else old(Now());
              Now() == u.(ip := old(ip) + 1)
    {
      ghost var before := Now();
      ip := ip + 1;
      if sp > fp + nLocals {
        sp := sp - 1;
        assert ps[..sp] == before.ps[..|before.ps| - 1];
      }
    }

    /** The dispatch loop, for at most `n` turns. */
    method Run(e: Env, n: nat)
      requires Valid()
      modifies this, ps, rs, ts
      ensures Valid() && State() == M.Run(e, old(State()), n)
    {
      hide M.Step;
      var left := n;
      while left > 0 && ended.None?
        invariant Valid()
        invariant M.Run(e, State(), left) == M.Run(e, old(State()), n)
      {
        Step(e);
        left := left - 1;
      }
    }
  }
}
