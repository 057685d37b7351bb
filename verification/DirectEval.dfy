/** Direct evaluation of a lambda body over one flat frame of slots: the meaning
    the compiler has to preserve. It consults the stack heights `sp`, `rp` and `tp`
    only to decide when a stack limit is hit, which is an error like any other. */
module DirectEval {
  import opened Options
  import opened Lang
  import opened Bytecode
  import opened CompileFacts

  /** World and frame survive an error: a handler sees what was stored before it. */
  datatype Res = Res(w: World, frame: seq<Slot>, out: Outcome)

  datatype ArgsOut = Vals(vs: seq<Value>) | Bad(payload: Value)

  datatype ArgsRes = ArgsRes(w: World, frame: seq<Slot>, out: ArgsOut)

  /** Where evaluation takes place: the running lambda, and how many call frames
      and trap frames there are. */
  datatype Place = Place(fn: Value, rp: nat, tp: nat)

  const LIMIT := Err(ZERO)

  /** A value is pushed on a stack of height `sp`. */
  function Pushed(sp: nat, v: Value): Outcome {
    if sp >= VM_STACK_SIZE then LIMIT else Ok(v)
  }

  function Unset(n: nat): seq<Slot> { seq(n, _ => None) }

  function Filled(vs: seq<Value>): seq<Slot> {
    seq(|vs|, i requires 0 <= i < |vs| => Some(vs[i]))
  }

  ghost function Left(rp: nat): nat { if rp <= VM_STACK_SIZE then VM_STACK_SIZE - rp else 0 }

  function Eval(e: Env, p: Place, sp: nat, scope: Scope, w: World, frame: seq<Slot>, a: Ast): (r: Res)
    requires |ScopeAfter(e.ct, scope, a)| <= |frame|
    ensures |r.frame| == |frame|
    decreases Left(p.rp), 1, a
  {
    match a
    case Lit(v) => Res(w, frame, Pushed(sp, v))
    case Name(s) =>
      var slot := Find(scope, s);
      if slot.Some? then
        var v := frame[slot.value];
        Res(w, frame, Pushed(sp, if v.Some? then v.value else ZERO))
      else
        var v := EnvGet(e.ct, w, s);
        Res(w, frame, if v.None? then Err(ZERO) else Pushed(sp, v.value))
    case List(es) =>
      if es == [] then Res(w, frame, Pushed(sp, Form(es)))
      else EvalList(e, p, sp, scope, w, frame, es)
  }

  function EvalList(e: Env, p: Place, sp: nat, scope: Scope, w: World, frame: seq<Slot>, es: seq<Ast>): (r: Res)
    requires es != []
    requires |ScopeAfterList(e.ct, scope, es)| <= |frame|
    ensures |r.frame| == |frame|
    decreases Left(p.rp), 1, es, |es| + 1
  {
    match ShapeOf(e.ct, es)
    case ShDyn =>
      if sp >= VM_STACK_SIZE then Res(w, frame, LIMIT)
      else
        var d := e.host.dyn(w, es);
        Res(d.w, frame, d.out)
    case ShLet => EvalLet(e, p, sp, scope, w, frame, es)
    case ShIf => EvalIf(e, p, sp, scope, w, frame, es)
    case ShDo => EvalSeq(e, p, sp, scope, w, frame, es, 1)
    case ShTry => EvalTry(e, p, sp, scope, w, frame, es)
    case ShSelf =>
      var r := EvalAll(e, p, sp, scope, w, frame, es, 1);
      if r.out.Bad? then Res(r.w, r.frame, Err(r.out.payload))
      else
        var c := CallSelf(e, p, sp + |es| - 1, r.w, r.out.vs);
        Res(c.w, r.frame, c.out)
    case ShBuiltin(f) => EvalBuiltin(e, p, sp, scope, w, frame, es, f)
    case ShCall => EvalCall(e, p, sp, scope, w, frame, es)
  }

  /** Head, then arguments, then the call. */
  function EvalCall(e: Env, p: Place, sp: nat, scope: Scope, w: World, frame: seq<Slot>, es: seq<Ast>): (r: Res)
    requires es != []
    requires |ScopeAfterAll(e.ct, ScopeAfter(e.ct, scope, es[0]), es, 1)| <= |frame|
    ensures |r.frame| == |frame|
    decreases Left(p.rp), 1, es, |es|
  {
    var s1 := ScopeAfter(e.ct, scope, es[0]);
    var h := Eval(e, p, sp, scope, w, frame, es[0]);
    if h.out.Err? then h
    else
      var r := EvalAll(e, p, sp + 1, s1, h.w, h.frame, es, 1);
      if r.out.Bad? then Res(r.w, r.frame, Err(r.out.payload))
      else
        var c := Apply(e, p.rp, p.tp, sp, r.w, h.out.v, r.out.vs);
        Res(c.w, r.frame, c.out)
  }

  /** A call headed by the name of a builtin: the builtin it was when the lambda was
      compiled, whatever locals there are. */
  function EvalBuiltin(e: Env, p: Place, sp: nat, scope: Scope, w: World, frame: seq<Slot>, es: seq<Ast>,
                       f: Prim): (r: Res)
    requires es != [] && |ScopeAfterAll(e.ct, scope, es, 1)| <= |frame|
    ensures |r.frame| == |frame|
    decreases Left(p.rp), 1, es, |es|
  {
    if sp >= VM_STACK_SIZE then Res(w, frame, LIMIT)
    else
      var r := EvalAll(e, p, sp + 1, scope, w, frame, es, 1);
      if r.out.Bad? then Res(r.w, r.frame, Err(r.out.payload))
      else
        var c := Apply(e, p.rp, p.tp, sp, r.w, Builtin(f), r.out.vs);
        Res(c.w, r.frame, c.out)
  }

  /** Unless a local has the name of the builtin it is like any other call. */
  lemma HeadsAgree(e: Env, p: Place, sp: nat, scope: Scope, w: World, frame: seq<Slot>, es: seq<Ast>, f: Prim)
    requires es != [] && ShapeOf(e.ct, es) == ShBuiltin(f) && |ScopeAfterList(e.ct, scope, es)| <= |frame|
    requires Find(scope, es[0].s).None?
    ensures ScopeAfter(e.ct, scope, es[0]) == scope
    ensures EvalList(e, p, sp, scope, w, frame, es) == EvalCall(e, p, sp, scope, w, frame, es)
  {
    hide EvalAll, Apply;
  }

  function EvalLet(e: Env, p: Place, sp: nat, scope: Scope, w: World, frame: seq<Slot>, es: seq<Ast>): (r: Res)
    requires |es| == 3 && ShapeOf(e.ct, es) == ShLet
    requires |ScopeAfterList(e.ct, scope, es)| <= |frame|
    ensures |r.frame| == |frame|
    decreases Left(p.rp), 1, es, |es|
  {
    var r := Eval(e, p, sp, scope, w, frame, es[2]);
    if r.out.Err? || !es[1].Name? then r
    else if sp + 1 >= VM_STACK_SIZE then Res(r.w, r.frame, LIMIT)
    else
      var slot := Find(ScopeAfterList(e.ct, scope, es), es[1].s);
      Res(r.w, if slot.Some? then r.frame[slot.value := Some(r.out.v)] else r.frame, r.out)
  }

  function EvalIf(e: Env, p: Place, sp: nat, scope: Scope, w: World, frame: seq<Slot>, es: seq<Ast>): (r: Res)
    requires |es| >= 3 && ShapeOf(e.ct, es) == ShIf
    requires |ScopeAfterList(e.ct, scope, es)| <= |frame|
    ensures |r.frame| == |frame|
    decreases Left(p.rp), 1, es, |es|
  {
    var s1 := ScopeAfter(e.ct, scope, es[1]);
    var s2 := ScopeAfter(e.ct, s1, es[2]);
    var c := Eval(e, p, sp, scope, w, frame, es[1]);
    if c.out.Err? then c
    else if Truthy(c.out.v) then Eval(e, p, sp, s1, c.w, c.frame, es[2])
    else if |es| >= 4 then Eval(e, p, sp, s2, c.w, c.frame, es[3])
    else Res(c.w, c.frame, Ok(ZERO))
  }

  /** The handler runs in the frame the failing body left behind. */
  function EvalTry(e: Env, p: Place, sp: nat, scope: Scope, w: World, frame: seq<Slot>, es: seq<Ast>): (r: Res)
    requires |es| == 3 && ShapeOf(e.ct, es) == ShTry
    requires |ScopeAfterList(e.ct, scope, es)| <= |frame|
    ensures |r.frame| == |frame|
    decreases Left(p.rp), 1, es, |es|
  {
    var s0 := scope + [None];
    var s1 := ScopeAfter(e.ct, s0, es[1]);
    if p.tp >= VM_TRAP_SIZE then Res(w, frame, LIMIT)
    else
      var r := Eval(e, p.(tp := p.tp + 1), sp, s0, w, frame, es[1]);
      if r.out.Ok? then r
      else if sp >= VM_STACK_SIZE then Res(r.w, r.frame, LIMIT)
      else
        var payload := r.out.payload;
        var h := Eval(e, p, sp, s1, r.w, r.frame[|scope| := Some(payload)], es[2]);
        if h.out.Err? then h
        else if sp + 1 >= VM_STACK_SIZE then Res(h.w, h.frame, LIMIT)
        else
          var held := h.frame[|scope|];
          var c := Apply(e, p.rp, p.tp, sp, h.w, h.out.v, [if held.Some? then held.value else ZERO]);
          Res(c.w, h.frame, c.out)
  }

  /** The forms `es[i..]` at rising stack heights, stopping at the first error. */
  function EvalAll(e: Env, p: Place, sp: nat, scope: Scope, w: World, frame: seq<Slot>, es: seq<Ast>,
                   i: nat): (r: ArgsRes)
    requires i <= |es|
    requires |ScopeAfterAll(e.ct, scope, es, i)| <= |frame|
    ensures |r.frame| == |frame|
    ensures r.out.Vals? ==> |r.out.vs| == |es| - i
    decreases Left(p.rp), 1, es, |es| - i
  {
    if i == |es| then ArgsRes(w, frame, Vals([]))
    else
      var h := Eval(e, p, sp, scope, w, frame, es[i]);
      if h.out.Err? then ArgsRes(h.w, h.frame, Bad(h.out.payload))
      else
        var r := EvalAll(e, p, sp + 1, ScopeAfter(e.ct, scope, es[i]), h.w, h.frame, es, i + 1);
        if r.out.Bad? then r else ArgsRes(r.w, r.frame, Vals([h.out.v] + r.out.vs))
  }

  /** The forms `es[i..]` one after the other; the value is that of the last. */
  function EvalSeq(e: Env, p: Place, sp: nat, scope: Scope, w: World, frame: seq<Slot>, es: seq<Ast>, i: nat): (r: Res)
    requires i < |es|
    requires |ScopeAfterAll(e.ct, scope, es, i)| <= |frame|
    ensures |r.frame| == |frame|
    decreases Left(p.rp), 1, es, |es| - i
  {
    var h := Eval(e, p, sp, scope, w, frame, es[i]);
    if h.out.Err? || i + 1 == |es| then h
    else EvalSeq(e, p, sp, ScopeAfter(e.ct, scope, es[i]), h.w, h.frame, es, i + 1)
  }

  /** Calls `f` from a stack of height `sp`, function and arguments already popped. */
  function Apply(e: Env, rp: nat, tp: nat, sp: nat, w: World, f: Value, args: seq<Value>): Reply
    decreases Left(rp), 0
  {
    match f
    case Lam(params, body) =>
      var code := CodeOf(e.ct, f);
      if code.None? then e.host.walk(w, f, args)
      else if rp >= VM_STACK_SIZE || sp + code.value.nLocals >= VM_STACK_SIZE then Reply(w, LIMIT)
      else if |args| != |params| then Reply(w, Err(ErrObj(Arity)))
      else RunBody(e, Place(f, rp + 1, tp), sp, w, args)
    case Builtin(p) => ApplyBuiltin(e, w, p, args)
    case _ => Reply(w, Err(ErrObj(Type)))
  }

  function ApplyBuiltin(e: Env, w: World, p: Prim, args: seq<Value>): Reply {
    match p.kind
    case Unary =>
      if |args| < 1 then Reply(w, Err(ErrObj(Arity))) else e.host.call(w, p, args[..1])
    case Binary =>
      if |args| < 2 then Reply(w, Err(ErrObj(Arity))) else e.host.call(w, p, args[..2])
    case Vary => e.host.call(w, p, args)
  }

  /** A self-call keeps its arguments on the stack; only the limits are checked, not their
      number. */
  function CallSelf(e: Env, p: Place, sp: nat, w: World, args: seq<Value>): Reply
    decreases Left(p.rp), 0
  {
    var code := CodeOf(e.ct, p.fn);
    if code.None? then e.host.walk(w, p.fn, args)
    else if p.rp >= VM_STACK_SIZE || sp + code.value.nLocals >= VM_STACK_SIZE then Reply(w, LIMIT)
    else RunBody(e, p.(rp := p.rp + 1), if sp >= |args| then sp - |args| else 0, w, args)
  }

  /** A frame of `n` slots: the arguments first, as far as there are both. */
  function Fresh(args: seq<Value>, n: nat): (frame: seq<Slot>)
    ensures |frame| == n
  {
    if |args| <= n then Filled(args) + Unset(n - |args|) else Filled(args)[..n]
  }

  /** How high the frame makes the stack: surplus arguments stay on it. */
  function Height(args: seq<Value>, n: nat): nat { if |args| <= n then n else |args| }

  /** The body of `p.fn` in a fresh frame based at height `fp`. */
  function RunBody(e: Env, p: Place, fp: nat, w: World, args: seq<Value>): Reply
    requires p.fn.Lam? && CodeOf(e.ct, p.fn).Some?
    decreases Left(p.rp), 2
  {
    var n := CodeOf(e.ct, p.fn).value.nLocals;
    FrameSize(e.ct, p.fn);
    if p.fn.body == [] then Reply(w, Ok(if |args| > n then args[|args| - 1] else Null))
    else
      var r := EvalSeq(e, p, fp + Height(args, n), ParamScope(p.fn.params), w, Fresh(args, n), p.fn.body, 0);
      Reply(r.w, r.out)
  }

  /** A self-call with too few arguments: the parameters left over are zero. */
  lemma MissingIsZero(e: Env, p: Place, sp: nat, w: World, params: seq<Sym>, args: seq<Value>, n: nat, s: Sym)
    requires |params| <= n && Find(ParamScope(params), s).Some? && |args| <= Find(ParamScope(params), s).value
    ensures Eval(e, p, sp, ParamScope(params), w, Fresh(args, n), Name(s)).out == Pushed(sp, ZERO)
  {
  }

  /** Calling a lambda from outside: the arity check, then the body on an empty stack. */
  function Call(e: Env, w: World, fn: Value, args: seq<Value>): Reply
    requires CodeOf(e.ct, fn).Some?
  {
    if |args| != |fn.params| then Reply(w, Err(ErrObj(Arity)))
    else RunBody(e, Place(fn, 0, 0), 0, w, args)
  }
}
