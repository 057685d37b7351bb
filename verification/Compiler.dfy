/** The compiler as it runs: one object whose buffers grow and are patched in place.
    Every method leaves the object in the state the function of the same name gives. */
module CompilerObject {
  import opened Bytes
  import opened Options
  import opened Lang
  import opened Bytecode
  import opened CompileFacts

  class Compiler {
    var code: seq<byte>
    var consts: seq<Ast>
    var locals: Scope
    var maxLocals: nat
    var error: bool

    function State(): CState
      reads this
    {
      CState(code, consts, locals, maxLocals, error)
    }

    constructor ()
      ensures State() == START
    {
      code, consts, locals, maxLocals, error := [], [], [], 0, false;
    }

    method EmitByte(b: byte)
      modifies this`code
      ensures |code| == |old(code)| + 1
      ensures State() == Emit(old(State()), b)
    {
      code := code + [b];
    }

    method EmitPair(op: byte, arg: byte)
      modifies this`code
      ensures |code| == |old(code)| + 2
      ensures State() == EmitOp(old(State()), op, arg)
    {
      EmitByte(op);
      EmitByte(arg);
    }

    method EmitWithIndex(narrow: byte, wide: byte, idx: nat)
      modifies this`code
      ensures State() == EmitIndexed(old(State()), narrow, wide, idx)
    {
      if idx < 256 {
        EmitPair(narrow, idx);
      } else {
        EmitPair(wide, (idx / 256) % 256);
        EmitByte(idx % 256);
      }
    }

    /** Scans the pool for an entry that can be shared, or appends one. */
    method InternConstant(v: Ast) returns (idx: nat)
      modifies this`consts
      ensures (State(), idx) == AddConstant(old(State()), v)
      ensures idx < |consts| && consts[idx] == v && old(consts) <= consts
    {
      idx := 0;
      while idx < |consts|
        invariant idx <= |consts| && consts == old(consts)
        invariant FindConstant(consts, v, 0) == FindConstant(consts, v, idx)
      {
        if SameConstant(consts[idx], v) { return; }
        idx := idx + 1;
      }
      consts := consts + [v];
    }

    method Load(v: Ast)
      modifies this`consts, this`code
      ensures |old(code)| <= |code|
      ensures State() == LoadConstant(old(State()), v)
    {
      var idx := InternConstant(v);
      EmitWithIndex(OP_LOADCONST, OP_LOADCONST_W, idx);
    }

    /** The innermost slot of a name, searching from the last one declared. */
    method FindLocal(s: Sym) returns (slot: Option<nat>)
      ensures slot == Find(locals, s)
    {
      var i := |locals|;
      assert locals[..i] == locals;
      while i > 0
        invariant 0 <= i <= |locals|
        invariant Find(locals, s) == Find(locals[..i], s)
      {
        i := i - 1;
        assert locals[..i + 1][..i] == locals[..i];
        if locals[i] == Some(s) { return Some(i); }
      }
      return None;
    }

    method NewLocal(l: Option<Sym>) returns (slot: Option<nat>)
      modifies this`locals, this`maxLocals
      ensures (State(), slot) == AddLocal(old(State()), l)
    {
      if |locals| >= MAX_LOCALS { return None; }
      slot := Some(|locals|);
      locals := locals + [l];
      if |locals| > maxLocals { maxLocals := |locals|; }
    }

    method JumpPlaceholder(op: byte) returns (pos: nat)
      modifies this`code
      ensures State() == EmitJump(old(State()), op)
      ensures pos == |old(code)| + 1 && |code| == |old(code)| + 3
    {
      EmitByte(op);
      pos := |code|;
      EmitByte(0);
      EmitByte(0);
    }

    method Patch(pos: nat)
      requires pos + 2 <= |code|
      modifies this`code, this`error
      ensures State() == PatchJump(old(State()), pos)
      ensures |code| == |old(code)|
    {
      var raw := |code| - pos - 2;
      if raw > 32767 || raw < -32768 { error := true; return; }
      var u := raw % 65536;
      code := code[pos := u / 256];
      code := code[pos + 1 := u % 256];
    }

    method Expr(ct: Builtins, a: Ast)
      modifies this
      ensures |old(code)| <= |code|
      ensures State() == CompileExpr(ct, old(State()), a)
      decreases a
    {
      if error { return; }
      match a
      case Name(s) =>
        var slot := FindLocal(s);
        if slot.Some? {
          if slot.value < 256 { EmitPair(OP_LOADENV, slot.value); } else { error := true; }
        } else {
          var idx := InternConstant(a);
          EmitWithIndex(OP_RESOLVE, OP_RESOLVE_W, idx);
        }
      case Lit(_) => Load(a);
      case List(es) => if es == [] { Load(a); } else { Form(ct, es); }
    }

    method Form(ct: Builtins, es: seq<Ast>)
      requires es != []
      modifies this
      ensures State() == CompileList(ct, old(State()), es)
      decreases es, |es| + 1
    {
      hide CompileExpr, CompileAll, CompileSeq, CompileIf, CompileTry;
      hide EmitOp, LoadConstant, StoreLet, EmitBuiltinCall;
      match ShapeOf(ct, es)
      case ShDyn =>
        Load(List(es));
        EmitPair(OP_CALLD, 0);
      case ShLet =>
        Expr(ct, es[2]);
        FinishLet(es[1]);
      case ShIf => Conditional(ct, es);
      case ShDo => Sequence(ct, es, 1);
      case ShTry => Try(ct, es);
      case ShSelf =>
        if |es| - 1 > MAX_ARGS { error := true; return; }
        Arguments(ct, es);
        EmitPair(OP_CALLS, |es| - 1);
      case ShBuiltin(p) =>
        Load(Lit(Builtin(p)));
        if |es| - 1 > MAX_ARGS { error := true; return; }
        Arguments(ct, es);
        BuiltinCall(p, |es| - 1);
      case ShCall =>
        Expr(ct, es[0]);
        if |es| - 1 > MAX_ARGS { error := true; return; }
        Arguments(ct, es);
        EmitPair(OP_CALLF, |es| - 1);
    }

    method BuiltinCall(p: Prim, argc: byte)
      modifies this`code
      ensures State() == EmitBuiltinCall(old(State()), p, argc)
    {
      if p.kind == Unary && argc == 1 { EmitByte(OP_CALL1); }
      else if p.kind == Binary && argc == 2 { EmitByte(OP_CALL2); }
      else if p.kind == Vary { EmitPair(OP_CALLN, argc); }
      else { EmitPair(OP_CALLF, argc); }
    }

    method FinishLet(target: Ast)
      modifies this
      ensures State() == StoreLet(old(State()), target)
    {
      EmitByte(OP_DUP);
      if !target.Name? { error := true; return; }
      var slot := FindLocal(target.s);
      if slot.None? { slot := NewLocal(Some(target.s)); }
      if slot.None? || slot.value >= 256 { error := true; return; }
      EmitPair(OP_STOREENV, slot.value);
    }

    method Conditional(ct: Builtins, es: seq<Ast>)
      requires |es| >= 3
      modifies this
      ensures State() == CompileIf(ct, old(State()), es)
      decreases es, |es|
    {
      hide CompileExpr, EmitJump, PatchJump, LoadConstant;
      Expr(ct, es[1]);
      var jmpf := JumpPlaceholder(OP_JMPF);
      Expr(ct, es[2]);
      var jmp := JumpPlaceholder(OP_JMP);
      Patch(jmpf);
      if |es| >= 4 { Expr(ct, es[3]); } else { Load(Lit(ZERO)); }
      Patch(jmp);
    }

    method Try(ct: Builtins, es: seq<Ast>)
      requires |es| == 3
      modifies this
      ensures State() == CompileTry(ct, old(State()), es)
      decreases es, |es|
    {
      hide CompileExpr, EmitJump, PatchJump, Emit, EmitOp;
      var slot := NewLocal(None);
      if slot.None? || slot.value >= 256 { error := true; return; }
      var trap := JumpPlaceholder(OP_TRAP);
      Expr(ct, es[1]);
      EmitByte(OP_TRAP_END);
      var jmp := JumpPlaceholder(OP_JMP);
      Patch(trap);
      Handler(ct, es, slot.value);
      Patch(jmp);
    }

    /** The payload kept in its slot, the handler called with it. */
    method Handler(ct: Builtins, es: seq<Ast>, slot: byte)
      requires |es| == 3
      modifies this
      ensures var stored := CompileExpr(ct, EmitOp(old(State()), OP_STOREENV, slot), es[2]);
              State() == EmitOp(EmitOp(stored, OP_LOADENV, slot), OP_CALLF, 1)
      ensures |old(code)| <= |code|
      decreases es, |es|, 0
    {
      hide CompileExpr, EmitJump, PatchJump, Emit, EmitOp;
      EmitPair(OP_STOREENV, slot);
      Expr(ct, es[2]);
      EmitPair(OP_LOADENV, slot);
      EmitPair(OP_CALLF, 1);
    }

    /** All elements after the head, left to right. */
    method Arguments(ct: Builtins, es: seq<Ast>)
      requires es != []
      modifies this
      ensures State() == CompileAll(ct, old(State()), es, 1)
      decreases es, |es|
    {
      for i := 1 to |es|
        invariant CompileAll(ct, State(), es, i) == CompileAll(ct, old(State()), es, 1)
      {
        Expr(ct, es[i]);
      }
    }

    method Sequence(ct: Builtins, es: seq<Ast>, lo: nat)
      requires lo <= |es|
      modifies this
      ensures State() == CompileSeq(ct, old(State()), es, lo, lo)
      decreases es, |es|
    {
      for i := lo to |es|
        invariant CompileSeq(ct, State(), es, lo, i) == CompileSeq(ct, old(State()), es, lo, lo)
      {
        if i > lo { EmitByte(OP_POP); }
        Expr(ct, es[i]);
      }
    }

    method Parameters(params: seq<Sym>)
      modifies this
      ensures State() == AddParams(old(State()), params)
    {
      var i := 0;
      assert params[0..] == params;
      while i < |params|
        invariant 0 <= i <= |params|
        invariant AddParams(State(), params[i..]) == AddParams(old(State()), params)
      {
        var slot := NewLocal(Some(params[i]));
        if slot.None? { error := true; return; }
        assert params[i..][1..] == params[i + 1..];
        i := i + 1;
      }
    }
  }

  /** Compiling a lambda: the bytecode it carries from now on, which the machine is proved
      correct for, or none. */
  method Compile(ct: Builtins, fn: Value) returns (code: Option<Code>)
    requires fn.Lam?
    ensures code.Some? && |code.value.consts| <= MAX_POOL ==> code == CodeOf(ct, fn)
    ensures code.None? ==> CodeOf(ct, fn).None?
  {
    var c := new Compiler();
    c.Parameters(fn.params);
    c.Sequence(ct, fn.body, 0);
    c.EmitByte(OP_RET);
    if c.error { return None; }
    return Some(Code(c.code, c.consts, c.maxLocals));
  }
}
