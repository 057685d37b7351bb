/** Rayfall values, parsed forms and the host the language runs in.

    A parsed form is itself a runtime object: the constant pool of a compiled
    lambda holds literals, name atoms and whole unevaluated forms. */
module Lang {
  import opened Options

  /** Interned symbols; the first seven are the special forms the compiler knows by name. */
  datatype Sym = SfSet | SfLet | SfIf | SfDo | SfFn | SfSelf | SfTry | Id(id: nat)

  datatype Kind = Unary | Binary | Vary

  datatype Prim = Prim(kind: Kind, special: bool, id: nat)

  datatype ErrCode = Arity | Type

  /** `Obj` is any other heap object, identified by its address; `Form` is a list
      that has reached the stack unevaluated. */
  datatype Value =
    | I64(i: int)
    | F64(f: real)
    | Bool(b: bool)
    | SymLit(s: Sym)
    | Obj(addr: nat)
    | Null
    | ErrObj(code: ErrCode)
    | Builtin(p: Prim)
    | Lam(params: seq<Sym>, body: seq<Ast>)
    | Form(form: seq<Ast>)

  datatype Ast =
    | Lit(v: Value)
    | Name(s: Sym)
    | List(elems: seq<Ast>)

  /** The result of anything that may raise; the payload is what a handler receives. */
  datatype Outcome = Ok(v: Value) | Err(payload: Value)

  type World = map<Sym, Value>

  datatype Reply = Reply(w: World, out: Outcome)

  /** What the compiler and the machine do not look into: builtins, dynamic
      evaluation of a form in the global environment, and the tree-walking
      fallback for a lambda that has no bytecode. */
  datatype Host = Host(
    call: (World, Prim, seq<Value>) -> Reply,
    dyn: (World, seq<Ast>) -> Reply,
    walk: (World, Value, seq<Value>) -> Reply)

  type Builtins = map<Sym, Prim>

  datatype Env = Env(host: Host, ct: Builtins)

  /** A slot of a call frame; `None` until something is stored. */
  type Slot = Option<Value>

  const VM_STACK_SIZE := 1024
  const VM_TRAP_SIZE := 16
  const MAX_LOCALS := 256
  const MAX_ARGS := 64

  /** The value a handler sees when the machine itself raised the error. */
  const ZERO := I64(0)

  function Truthy(v: Value): bool {
    match v
    case Null => false
    case Bool(b) => b
    case I64(i) => i != 0
    case F64(f) => f != 0.0
    case _ => true
  }

  function EnvGet(ct: Builtins, w: World, s: Sym): Option<Value> {
    if s in ct then Some(Builtin(ct[s]))
    else if s in w then Some(w[s])
    else None
  }

  // ----- which construct a non-empty list denotes -----

  datatype Shape =
    | ShDyn
    | ShLet
    | ShIf
    | ShDo
    | ShTry
    | ShSelf
    | ShBuiltin(p: Prim)
    | ShCall

  function ShapeOf(ct: Builtins, es: seq<Ast>): Shape
    requires es != []
  {
    var n := |es|;
    if !es[0].Name? then ShCall
    else
      var s := es[0].s;
      if s == SfSet && n == 3 then ShDyn
      else if s == SfLet && n == 3 then ShLet
      else if s == SfIf && n >= 3 then ShIf
      else if s == SfDo && n >= 2 then ShDo
      else if s == SfFn && n >= 3 then ShDyn
      else if s == SfTry && n == 3 then ShTry
      else if s == SfSelf then ShSelf
      else if s in ct then
        if ct[s].special then ShDyn else ShBuiltin(ct[s])
      else ShCall
  }

  // ----- local slots -----

  /** The compile-time view of a frame: slot i holds the variable `scope[i]`;
      `None` is the hidden slot a `try` reserves. */
  type Scope = seq<Option<Sym>>

  function Find(scope: Scope, s: Sym): (slot: Option<nat>)
    ensures slot.Some? ==> slot.value < |scope| && scope[slot.value] == Some(s)
    ensures slot.Some? ==> forall j :: slot.value < j < |scope| ==> scope[j] != Some(s)
    ensures slot.None? ==> Some(s) !in scope
  {
    if scope == [] then None
    else if scope[|scope| - 1] == Some(s) then Some(|scope| - 1)
    else
      assert scope == scope[..|scope| - 1] + [scope[|scope| - 1]];
      Find(scope[..|scope| - 1], s)
  }

  function ParamScope(params: seq<Sym>): Scope {
    seq(|params|, i requires 0 <= i < |params| => Some(params[i]))
  }

  function Declare(scope: Scope, s: Sym): Scope {
    if Find(scope, s).Some? then scope else scope + [Some(s)]
  }

  /** The scope once a form has been compiled; every branch of a conditional declares. */
  function ScopeAfter(ct: Builtins, scope: Scope, a: Ast): (r: Scope)
    ensures scope <= r
    decreases a
  {
    if a.List? && a.elems != [] then ScopeAfterList(ct, scope, a.elems) else scope
  }

  function ScopeAfterList(ct: Builtins, scope: Scope, es: seq<Ast>): (r: Scope)
    requires es != []
    ensures scope <= r
    decreases es, |es| + 1
  {
    match ShapeOf(ct, es)
    case ShDyn => scope
    case ShLet =>
      var s1 := ScopeAfter(ct, scope, es[2]);
      if es[1].Name? then Declare(s1, es[1].s) else s1
    case ShIf =>
      var s2 := ScopeAfter(ct, ScopeAfter(ct, scope, es[1]), es[2]);
      if |es| >= 4 then ScopeAfter(ct, s2, es[3]) else s2
    case ShDo => ScopeAfterAll(ct, scope, es, 1)
    case ShTry =>
      ScopeAfter(ct, ScopeAfter(ct, scope + [None], es[1]), es[2])
    case ShSelf => ScopeAfterAll(ct, scope, es, 1)
    case ShBuiltin(_) => ScopeAfterAll(ct, scope, es, 1)
    case ShCall =>
      ScopeAfterAll(ct, ScopeAfter(ct, scope, es[0]), es, 1)
  }

  function ScopeAfterAll(ct: Builtins, scope: Scope, es: seq<Ast>, i: nat): (r: Scope)
    requires i <= |es|
    ensures scope <= r
    decreases es, |es| - i
  {
    if i == |es| then scope else ScopeAfterAll(ct, ScopeAfter(ct, scope, es[i]), es, i + 1)
  }
}
