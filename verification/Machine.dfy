/** One instruction of the stack machine, as a function of its state. */
module Machine {
  import opened Bytes
  import opened Options
  import opened Lang
  import opened Bytecode
  import opened Layout
  import opened DirectEval

  /** A return frame; `None` marks a self-call, which keeps the running lambda. */
  datatype Ctx = Ctx(fn: Option<Value>, fp: nat, ip: nat)

  datatype Trap = Trap(rp: nat, sp: nat, ip: int, fn: Value, fp: nat, nLocals: nat)

  /** The stack `ps` ends at the stack pointer; slots not yet stored are `None`. */
  datatype Vm = Vm(fn: Value, nLocals: nat, fp: nat, ip: int,
                   ps: seq<Slot>, rs: seq<Ctx>, ts: seq<Trap>, w: World)

  datatype State =
    | Running(vm: Vm)
    | Returned(w: World, v: Value)
    | Raised(w: World, payload: Value)
    | Stuck

  function Min(a: nat, b: nat): nat { if a <= b then a else b }

  function Push(vm: Vm, v: Value): State {
    if |vm.ps| >= VM_STACK_SIZE then Throw(vm, ZERO)
    else Running(vm.(ps := vm.ps + [Some(v)]))
  }

  /** Back to where the innermost trap was set, the trap itself gone. */
  function Unwound(vm: Vm): Vm
    requires vm.ts != []
  {
    var t := vm.ts[|vm.ts| - 1];
    Vm(t.fn, t.nLocals, t.fp, t.ip,
       vm.ps[..Min(|vm.ps|, t.sp)], vm.rs[..Min(|vm.rs|, t.rp)], vm.ts[..|vm.ts| - 1], vm.w)
  }

  /** Unwinds to the innermost trap and hands it the payload. A stack too full
      for the payload is itself an error, for the next trap out. */
  function Throw(vm: Vm, payload: Value): State
    decreases |vm.ts|
  {
    if vm.ts == [] then Raised(vm.w, payload)
    else
      var u := Unwound(vm);
      if |u.ps| >= VM_STACK_SIZE then Throw(u, ZERO)
      else Running(u.(ps := u.ps + [Some(payload)]))
  }

  /** The `n` topmost stack entries, all of them set. */
  predicate CanPop(vm: Vm, n: nat) {
    |vm.ps| >= n && forall i :: |vm.ps| - n <= i < |vm.ps| ==> vm.ps[i].Some?
  }

  function Top(vm: Vm, n: nat): seq<Value>
    requires CanPop(vm, n)
  {
    seq(n, i requires 0 <= i < n => vm.ps[|vm.ps| - n + i].value)
  }

  function Drop(vm: Vm, n: nat): Vm
    requires n <= |vm.ps|
  {
    vm.(ps := vm.ps[..|vm.ps| - n])
  }

  function Finish(vm: Vm, r: Reply): State {
    var u := vm.(w := r.w);
    match r.out
    case Ok(v) => Push(u, v)
    case Err(p) => Throw(u, p)
  }

  function Step(e: Env, vm: Vm): State {
    var code := CodeOf(e.ct, vm.fn);
    if code.None? || vm.ip < 0 || vm.ip >= |code.value.code| then Stuck
    else Exec(e, vm, code.value, code.value.code[vm.ip])
  }

  function Exec(e: Env, vm: Vm, k: Code, op: byte): State
    requires 0 <= vm.ip < |k.code|
  {
    if op == OP_RET then Return(e, vm)
    else if op == OP_POP then
      if |vm.ps| > vm.fp + vm.nLocals then Running(Drop(vm, 1).(ip := vm.ip + 1))
      else Running(vm.(ip := vm.ip + 1))
    else if op == OP_DUP then
      if CanPop(vm, 1) then Push(vm.(ip := vm.ip + 1), Top(vm, 1)[0]) else Stuck
    else if op == OP_LOADCONST || op == OP_LOADCONST_W then
      var o := Operand(k.code, vm.ip, OP_LOADCONST, OP_LOADCONST_W);
      if o.None? || o.value.0 >= |k.consts| then Stuck
      else PushConst(vm.(ip := o.value.1), k.consts[o.value.0])
    else if op == OP_RESOLVE || op == OP_RESOLVE_W then
      var o := Operand(k.code, vm.ip, OP_RESOLVE, OP_RESOLVE_W);
      if o.None? || o.value.0 >= |k.consts| then Stuck
      else Resolve(e, vm.(ip := o.value.1), k.consts[o.value.0])
    else if op == OP_CALL1 then
      if CanPop(vm, 2) && Top(vm, 2)[0].Builtin? then
        CallBuiltin(e, Drop(vm, 2).(ip := vm.ip + 1), Top(vm, 2)[0].p, Top(vm, 2)[1..])
      else Stuck
    else if op == OP_CALL2 then
      if CanPop(vm, 3) && Top(vm, 3)[0].Builtin? then
        CallBuiltin(e, Drop(vm, 3).(ip := vm.ip + 1), Top(vm, 3)[0].p, Top(vm, 3)[1..])
      else Stuck
    else if op == OP_TRAP_END then
      Running(vm.(ip := vm.ip + 1, ts := if vm.ts == [] then [] else vm.ts[..|vm.ts| - 1]))
    else if op == OP_JMP || op == OP_JMPF || op == OP_TRAP then
      if vm.ip + 2 >= |k.code| then Stuck
      else ExecJump(vm, op, Target(k.code, vm.ip + 1))
    else if vm.ip + 1 >= |k.code| then Stuck
    else ExecArg(e, vm.(ip := vm.ip + 2), op, k.code[vm.ip + 1])
  }

  /** A constant on the stack: a literal is its value, a list stays unevaluated. */
  function PushConst(vm: Vm, a: Ast): State {
    match a
    case Lit(v) => Push(vm, v)
    case List(es) => Push(vm, Form(es))
    case Name(_) => Stuck
  }

  function Resolve(e: Env, vm: Vm, a: Ast): State {
    if !a.Name? then Stuck
    else
      var v := EnvGet(e.ct, vm.w, a.s);
      if v.None? then Throw(vm, ZERO) else Push(vm, v.value)
  }

  function ExecJump(vm: Vm, op: byte, target: int): State {
    if op == OP_JMP then Running(vm.(ip := target))
    else if op == OP_JMPF then
      if CanPop(vm, 1) then
        Running(Drop(vm, 1).(ip := if Truthy(Top(vm, 1)[0]) then vm.ip + 3 else target))
      else Stuck
    else if |vm.ts| >= VM_TRAP_SIZE then Throw(vm, ZERO)
    else
      Running(vm.(ip := vm.ip + 3,
                  ts := vm.ts + [Trap(|vm.rs|, |vm.ps|, target, vm.fn, vm.fp, vm.nLocals)]))
  }

  function ExecArg(e: Env, vm: Vm, op: byte, arg: byte): State {
    if op == OP_LOADENV then
      if vm.fp + arg < |vm.ps| then
        var v := vm.ps[vm.fp + arg];
        Push(vm, if v.Some? then v.value else ZERO)
      else Stuck
    else if op == OP_STOREENV then
      if CanPop(vm, 1) && vm.fp + arg < |vm.ps| - 1 then
        Running(Drop(vm, 1).(ps := Drop(vm, 1).ps[vm.fp + arg := Some(Top(vm, 1)[0])]))
      else Stuck
    else if op == OP_CALLN then
      if CanPop(vm, arg + 1) && Top(vm, arg + 1)[0].Builtin? then
        CallBuiltin(e, Drop(vm, arg + 1), Top(vm, arg + 1)[0].p, Top(vm, arg + 1)[1..])
      else Stuck
    else if op == OP_CALLF then
      if CanPop(vm, arg + 1) then
        CallValue(e, Drop(vm, arg + 1), Top(vm, arg + 1)[0], Top(vm, arg + 1)[1..])
      else Stuck
    else if op == OP_CALLS then SelfCall(vm, arg)
    else if op == OP_CALLD then
      if arg == 0 && CanPop(vm, 1) && Top(vm, 1)[0].Form? then
        Finish(Drop(vm, 1), e.host.dyn(vm.w, Top(vm, 1)[0].form))
      else Stuck
    else Stuck
  }

  function CallBuiltin(e: Env, vm: Vm, p: Prim, args: seq<Value>): State {
    Finish(vm, e.host.call(vm.w, p, args))
  }

  /** The general call. A compiled lambda gets a frame; anything else is called on the spot. */
  function CallValue(e: Env, vm: Vm, f: Value, args: seq<Value>): State {
    match f
    case Lam(params, body) =>
      var code := CodeOf(e.ct, f);
      if code.None? then Finish(vm, e.host.walk(vm.w, f, args))
      else if |vm.rs| >= VM_STACK_SIZE || |vm.ps| + code.value.nLocals >= VM_STACK_SIZE then Throw(vm, ZERO)
      else if |args| != |params| || |args| > code.value.nLocals then Throw(vm, ErrObj(Arity))
      else
        Running(Vm(f, code.value.nLocals, |vm.ps|, 0,
                   vm.ps + Filled(args) + Unset(code.value.nLocals - |args|),
                   vm.rs + [Ctx(Some(vm.fn), vm.fp, if vm.ip >= 0 then vm.ip else 0)], vm.ts, vm.w))
    case Builtin(p) => Finish(vm, ApplyBuiltin(e, vm.w, p, args))
    case _ => Throw(vm, ErrObj(Type))
  }

  /** The arguments already on the stack become the first locals of the new frame. */
  function SelfCall(vm: Vm, argc: byte): State {
    if |vm.rs| >= VM_STACK_SIZE || |vm.ps| + vm.nLocals >= VM_STACK_SIZE then Throw(vm, ZERO)
    else if |vm.ps| < argc then Stuck
    else
      Running(vm.(fp := |vm.ps| - argc, ip := 0,
                  ps := vm.ps + Unset(if vm.nLocals >= argc then vm.nLocals - argc else 0),
                  rs := vm.rs + [Ctx(None, vm.fp, if vm.ip >= 0 then vm.ip else 0)]))
  }

  function Return(e: Env, vm: Vm): State {
    var fromStack := |vm.ps| > vm.fp + vm.nLocals;
    if (fromStack && !CanPop(vm, 1)) || |vm.ps| < vm.fp then Stuck
    else
      var v := if fromStack then Top(vm, 1)[0] else Null;
      if vm.rs == [] then Returned(vm.w, v)
      else
        var c := vm.rs[|vm.rs| - 1];
        var u := vm.(ps := vm.ps[..vm.fp], rs := vm.rs[..|vm.rs| - 1], fp := c.fp, ip := c.ip);
        if c.fn.None? then Push(u, v)
        else
          var code := CodeOf(e.ct, c.fn.value);
          if code.None? then Stuck
          else Push(u.(fn := c.fn.value, nLocals := code.value.nLocals), v)
  }

  /** The state after at most `n` instructions. */
  function Run(e: Env, s: State, n: nat): State
    decreases n
  {
    if n == 0 || !s.Running? then s else Run(e, Step(e, s.vm), n - 1)
  }

  lemma {:induction false} RunAdd(e: Env, s: State, m: nat, n: nat)
    ensures Run(e, s, m + n) == Run(e, Run(e, s, m), n)
    decreases m
  {
    hide Step;
    if m > 0 && s.Running? { RunAdd(e, Step(e, s.vm), m - 1, n); }
  }

  /** The machine about to run a lambda on an empty stack. */
  function Start(e: Env, w: World, fn: Value, args: seq<Value>): State
    requires CodeOf(e.ct, fn).Some?
  {
    var n := CodeOf(e.ct, fn).value.nLocals;
    if |args| != |fn.params| || |args| > n then Raised(w, ErrObj(Arity))
    else Running(Vm(fn, n, 0, 0, Filled(args) + Unset(n - |args|), [], [], w))
  }
}
