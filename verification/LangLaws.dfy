/** What the forms of the language mean, each said by its name and its parts alone. */
module LangLaws {
  import opened Options
  import opened Lang
  import opened Bytecode
  import opened CompileFacts
  import opened DirectEval

  /** The frame has a slot for everything the form declares. */
  ghost predicate Fits(e: Env, scope: Scope, frame: seq<Slot>, es: seq<Ast>)
    ensures Fits(e, scope, frame, es) ==> |scope| <= |frame|
    ensures Fits(e, scope, frame, es) && |es| >= 2 && es[0] == Name(SfDo) ==>
              |ScopeAfter(e.ct, scope, es[1])| <= |frame|
  {
    hide ScopeAfter;
    DoScope(e.ct, scope, es);
    es != [] && |ScopeAfterList(e.ct, scope, es)| <= |frame|
  }

  /** The name `s` is that of the ordinary builtin `f`, when compiled. */
  ghost predicate NamesBuiltin(e: Env, a: Ast, f: Prim) {
    a.Name? && a.s.Id? && a.s in e.ct && e.ct[a.s] == f && !f.special
  }

  lemma PairScope(e: Env, scope: Scope, es: seq<Ast>, f: Prim)
    requires |es| == 3 && NamesBuiltin(e, es[0], f)
    ensures ScopeAfterList(e.ct, scope, es) == ScopeAfterAll(e.ct, scope, es, 1)
            == ScopeAfter(e.ct, ScopeAfter(e.ct, scope, es[1]), es[2])
  {
    var s1 := ScopeAfter(e.ct, scope, es[1]);
    assert ScopeAfterAll(e.ct, s1, es, 2) == ScopeAfter(e.ct, s1, es[2]);
  }

  lemma DoScope(ct: Builtins, scope: Scope, es: seq<Ast>)
    ensures |es| >= 2 && es[0] == Name(SfDo) ==>
              |ScopeAfter(ct, scope, es[1])| <= |ScopeAfterAll(ct, ScopeAfter(ct, scope, es[1]), es, 2)|
              == |ScopeAfterList(ct, scope, es)|
  {
    if |es| >= 2 && es[0] == Name(SfDo) {
      assert ShapeOf(ct, es) == ShDo;
      assert ScopeAfterAll(ct, scope, es, 1) == ScopeAfterAll(ct, ScopeAfter(ct, scope, es[1]), es, 2);
    }
  }

  // ----- if -----

  /** The first arm unless the condition is one of four values; without a second arm, zero. */
  lemma IfTakes(e: Env, p: Place, sp: nat, scope: Scope, w: World, frame: seq<Slot>, es: seq<Ast>)
    requires |es| >= 3 && es[0] == Name(SfIf) && Fits(e, scope, frame, es)
    ensures var c := Eval(e, p, sp, scope, w, frame, es[1]);
            var s1 := ScopeAfter(e.ct, scope, es[1]);
            EvalList(e, p, sp, scope, w, frame, es) ==
            if c.out.Err? then c
            else if c.out.v != Null && c.out.v != Bool(false) && c.out.v != I64(0) && c.out.v != F64(0.0)
            then Eval(e, p, sp, s1, c.w, c.frame, es[2])
            else if |es| == 3 then Res(c.w, c.frame, Ok(I64(0)))
            else Eval(e, p, sp, ScopeAfter(e.ct, s1, es[2]), c.w, c.frame, es[3])
  {
    hide Eval;
  }

  // ----- names -----

  /** A local is read from the last slot of its name; unset, it is zero. */
  lemma LocalRead(e: Env, p: Place, sp: nat, scope: Scope, w: World, frame: seq<Slot>, s: Sym, j: nat)
    requires j < |scope| <= |frame| && scope[j] == Some(s) && forall i :: j < i < |scope| ==> scope[i] != Some(s)
    ensures var v := if frame[j].Some? then frame[j].value else I64(0);
            Eval(e, p, sp, scope, w, frame, Name(s)) == Res(w, frame, if sp < 1024 then Ok(v) else Err(I64(0)))
  {
  }

  /** Any other name is a builtin, or else global, or else an error. */
  lemma GlobalRead(e: Env, p: Place, sp: nat, scope: Scope, w: World, frame: seq<Slot>, s: Sym)
    requires Some(s) !in scope && |scope| <= |frame| && sp < 1024
    ensures Eval(e, p, sp, scope, w, frame, Name(s)) ==
            Res(w, frame, if s in e.ct then Ok(Builtin(e.ct[s])) else if s in w then Ok(w[s]) else Err(I64(0)))
  {
  }

  // ----- let -----

  /** The value of a `let` is that of its form, and from then on that of the name; all
      other names mean what they meant. */
  lemma LetBinds(e: Env, p: Place, sp: nat, scope: Scope, w: World, frame: seq<Slot>, es: seq<Ast>, s: Sym, t: Sym)
    requires |es| == 3 && es[0] == Name(SfLet) && es[1] == Name(s) && Fits(e, scope, frame, es) && sp + 1 < 1024
    ensures var after, inner := ScopeAfterList(e.ct, scope, es), ScopeAfter(e.ct, scope, es[2]);
            var v, r := Eval(e, p, sp, scope, w, frame, es[2]), EvalList(e, p, sp, scope, w, frame, es);
            && r.w == v.w && r.out == v.out
            && (v.out.Ok? ==> Eval(e, p, sp, after, r.w, r.frame, Name(s)).out == v.out)
            && (t != s ==> |inner| <= |v.frame|
                           && Eval(e, p, sp, after, r.w, r.frame, Name(t)).out
                              == Eval(e, p, sp, inner, v.w, v.frame, Name(t)).out)
  {
    hide Eval, ScopeAfter;
    var after, inner := ScopeAfterList(e.ct, scope, es), ScopeAfter(e.ct, scope, es[2]);
    var v, r := Eval(e, p, sp, scope, w, frame, es[2]), EvalList(e, p, sp, scope, w, frame, es);
    LetIs(e, p, sp, scope, w, frame, es, s);
    if v.out.Ok? { NameBound(e, p, sp, inner, v.w, v.frame, s, v.out.v); }
    if t != s { OtherName(e, p, sp, inner, v.w, v.frame, s, if v.out.Ok? then v.out.v else Null, t); }
  }

  lemma LetIs(e: Env, p: Place, sp: nat, scope: Scope, w: World, frame: seq<Slot>, es: seq<Ast>, s: Sym)
    requires |es| == 3 && es[0] == Name(SfLet) && es[1] == Name(s) && Fits(e, scope, frame, es) && sp + 1 < 1024
    ensures var v := Eval(e, p, sp, scope, w, frame, es[2]);
            var after, inner := ScopeAfterList(e.ct, scope, es), ScopeAfter(e.ct, scope, es[2]);
            && after == Declare(inner, s) && |after| <= |v.frame|
            && EvalList(e, p, sp, scope, w, frame, es) ==
               if v.out.Err? then v else Res(v.w, Bound(after, v.frame, s, v.out.v), v.out)
  {
    hide Eval, ScopeAfter;
  }

  function Bound(scope: Scope, frame: seq<Slot>, s: Sym, v: Value): seq<Slot>
    requires |scope| <= |frame|
  {
    var slot := Find(scope, s);
    if slot.Some? then frame[slot.value := Some(v)] else frame
  }

  lemma NameBound(e: Env, p: Place, sp: nat, inner: Scope, w: World, frame: seq<Slot>, s: Sym, v: Value)
    requires |Declare(inner, s)| <= |frame| && sp < 1024
    ensures var after := Declare(inner, s); Eval(e, p, sp, after, w, Bound(after, frame, s, v), Name(s)).out == Ok(v)
  {
    hide Declare, Find;
    DeclaredNames(inner, s, s);
  }

  lemma OtherName(e: Env, p: Place, sp: nat, inner: Scope, w: World, frame: seq<Slot>, s: Sym, v: Value, t: Sym)
    requires |Declare(inner, s)| <= |frame| && t != s
    ensures |inner| <= |frame|
    ensures var after := Declare(inner, s);
            && Eval(e, p, sp, after, w, frame, Name(t)).out == Eval(e, p, sp, inner, w, frame, Name(t)).out
            && Eval(e, p, sp, after, w, Bound(after, frame, s, v), Name(t)).out
               == Eval(e, p, sp, inner, w, frame, Name(t)).out
  {
    hide Declare, Find, EnvGet;
    DeclaredNames(inner, s, s);
    DeclaredNames(inner, s, t);
  }

  lemma DeclaredNames(scope: Scope, s: Sym, t: Sym)
    ensures |scope| <= |Declare(scope, s)|
    ensures t == s ==> Find(Declare(scope, s), t).Some?
    ensures t != s ==> Find(Declare(scope, s), t) == Find(scope, t)
    ensures t != s && Find(scope, t).Some? ==> Find(scope, t) != Find(Declare(scope, s), s)
  {
    if Find(scope, s).None? {
      assert (scope + [Some(s)])[..|scope|] == scope;
    }
  }

  // ----- do -----

  lemma {:induction false} SeqShift(e: Env, p: Place, sp: nat, scope: Scope, w: World, frame: seq<Slot>,
                                    es: seq<Ast>, i: nat, fs: seq<Ast>, j: nat)
    requires i < |es| && j < |fs| && es[i..] == fs[j..] && |ScopeAfterAll(e.ct, scope, es, i)| <= |frame|
    ensures ScopeAfterAll(e.ct, scope, es, i) == ScopeAfterAll(e.ct, scope, fs, j)
    ensures EvalSeq(e, p, sp, scope, w, frame, es, i) == EvalSeq(e, p, sp, scope, w, frame, fs, j)
    decreases |es| - i
  {
    hide Eval;
    SameScope(e.ct, scope, es, i, fs, j);
    assert es[i] == es[i..][0] && fs[j] == fs[j..][0] && |es| - i == |fs| - j;
    if i + 1 < |es| {
      assert es[i + 1..] == es[i..][1..] && fs[j + 1..] == fs[j..][1..];
      var h := Eval(e, p, sp, scope, w, frame, es[i]);
      SeqShift(e, p, sp, ScopeAfter(e.ct, scope, es[i]), h.w, h.frame, es, i + 1, fs, j + 1);
    }
  }

  lemma {:induction false} SameScope(ct: Builtins, scope: Scope, es: seq<Ast>, i: nat, fs: seq<Ast>, j: nat)
    requires i <= |es| && j <= |fs| && es[i..] == fs[j..]
    ensures ScopeAfterAll(ct, scope, es, i) == ScopeAfterAll(ct, scope, fs, j)
    decreases |es| - i
  {
    assert |es| - i == |fs| - j;
    if i < |es| {
      assert es[i] == es[i..][0] && fs[j] == fs[j..][0];
      assert es[i + 1..] == es[i..][1..] && fs[j + 1..] == fs[j..][1..];
      SameScope(ct, ScopeAfter(ct, scope, es[i]), es, i + 1, fs, j + 1);
    }
  }

  /** One form in a `do` is that form; of more, the first is evaluated and then the rest. */
  lemma DoSteps(e: Env, p: Place, sp: nat, scope: Scope, w: World, frame: seq<Slot>, es: seq<Ast>)
    requires |es| >= 2 && es[0] == Name(SfDo) && Fits(e, scope, frame, es)
    ensures var h := Eval(e, p, sp, scope, w, frame, es[1]);
            var s1 := ScopeAfter(e.ct, scope, es[1]);
            && (|es| > 2 ==> Fits(e, s1, h.frame, [es[0]] + es[2..]))
            && EvalList(e, p, sp, scope, w, frame, es) ==
               if h.out.Err? || |es| == 2 then h
               else EvalList(e, p, sp, s1, h.w, h.frame, [es[0]] + es[2..])
  {
    hide Eval;
    var fs := [es[0]] + es[2..];
    var h := Eval(e, p, sp, scope, w, frame, es[1]);
    var s1 := ScopeAfter(e.ct, scope, es[1]);
    assert es[2..] == fs[1..];
    DoScope(e.ct, scope, es);
    SameScope(e.ct, s1, es, 2, fs, 1);
    if |es| > 2 { SeqShift(e, p, sp, s1, h.w, h.frame, es, 2, fs, 1); }
  }

  // ----- hidden slots -----

  /** Slots without a name are as they were. */
  ghost predicate Spared(scope: Scope, before: seq<Slot>, after: seq<Slot>) {
    && |scope| <= |before| == |after|
    && forall i :: 0 <= i < |scope| && scope[i].None? ==> after[i] == before[i]
  }

  lemma SparedThen(scope: Scope, inner: Scope, a: seq<Slot>, b: seq<Slot>, c: seq<Slot>)
    requires scope <= inner && Spared(scope, a, b) && Spared(inner, b, c)
    ensures Spared(scope, a, c)
  {
  }

  /** Evaluation writes only to slots that have a name, or that it reserved itself. */
  lemma {:induction false} EvalSpares(e: Env, p: Place, sp: nat, scope: Scope, w: World, frame: seq<Slot>, a: Ast)
    requires |ScopeAfter(e.ct, scope, a)| <= |frame|
    ensures Spared(scope, frame, Eval(e, p, sp, scope, w, frame, a).frame)
    decreases a
  {
    hide EvalList;
    if a.List? && a.elems != [] { ListSpares(e, p, sp, scope, w, frame, a.elems); }
  }

  lemma {:induction false} ListSpares(e: Env, p: Place, sp: nat, scope: Scope, w: World, frame: seq<Slot>, es: seq<Ast>)
    requires es != [] && |ScopeAfterList(e.ct, scope, es)| <= |frame|
    ensures Spared(scope, frame, EvalList(e, p, sp, scope, w, frame, es).frame)
    decreases es, |es| + 1
  {
    hide Eval, EvalAll, EvalSeq, EvalIf, EvalLet, EvalTry, ScopeAfter, ScopeAfterAll, Apply, CallSelf;
    match ShapeOf(e.ct, es)
    case ShDyn =>
    case ShLet => LetSpares(e, p, sp, scope, w, frame, es);
    case ShIf => IfSpares(e, p, sp, scope, w, frame, es);
    case ShDo => SeqSpares(e, p, sp, scope, w, frame, es, 1);
    case ShTry => TrySpares(e, p, sp, scope, w, frame, es);
    case ShSelf => AllSpares(e, p, sp, scope, w, frame, es, 1);
    case ShBuiltin(_) =>
      if sp < VM_STACK_SIZE { AllSpares(e, p, sp + 1, scope, w, frame, es, 1); }
    case ShCall =>
      var s1 := ScopeAfter(e.ct, scope, es[0]);
      EvalSpares(e, p, sp, scope, w, frame, es[0]);
      var h := Eval(e, p, sp, scope, w, frame, es[0]);
      if h.out.Ok? {
        AllSpares(e, p, sp + 1, s1, h.w, h.frame, es, 1);
        SparedThen(scope, s1, frame, h.frame, EvalAll(e, p, sp + 1, s1, h.w, h.frame, es, 1).frame);
      }
  }

  lemma {:induction false} LetSpares(e: Env, p: Place, sp: nat, scope: Scope, w: World, frame: seq<Slot>, es: seq<Ast>)
    requires |es| == 3 && ShapeOf(e.ct, es) == ShLet && |ScopeAfterList(e.ct, scope, es)| <= |frame|
    ensures Spared(scope, frame, EvalLet(e, p, sp, scope, w, frame, es).frame)
    decreases es, |es|
  {
    hide Eval, ScopeAfter;
    EvalSpares(e, p, sp, scope, w, frame, es[2]);
  }

  lemma {:induction false} IfSpares(e: Env, p: Place, sp: nat, scope: Scope, w: World, frame: seq<Slot>, es: seq<Ast>)
    requires |es| >= 3 && ShapeOf(e.ct, es) == ShIf && |ScopeAfterList(e.ct, scope, es)| <= |frame|
    ensures Spared(scope, frame, EvalIf(e, p, sp, scope, w, frame, es).frame)
    decreases es, |es|
  {
    hide Eval, ScopeAfter, Truthy;
    var s1 := ScopeAfter(e.ct, scope, es[1]);
    var s2 := ScopeAfter(e.ct, s1, es[2]);
    EvalSpares(e, p, sp, scope, w, frame, es[1]);
    var c := Eval(e, p, sp, scope, w, frame, es[1]);
    if c.out.Ok? {
      EvalSpares(e, p, sp, s1, c.w, c.frame, es[2]);
      SparedThen(scope, s1, frame, c.frame, Eval(e, p, sp, s1, c.w, c.frame, es[2]).frame);
      if |es| >= 4 {
        EvalSpares(e, p, sp, s2, c.w, c.frame, es[3]);
        SparedThen(scope, s2, frame, c.frame, Eval(e, p, sp, s2, c.w, c.frame, es[3]).frame);
      }
    }
  }

  lemma {:induction false} TrySpares(e: Env, p: Place, sp: nat, scope: Scope, w: World, frame: seq<Slot>, es: seq<Ast>)
    requires |es| == 3 && ShapeOf(e.ct, es) == ShTry && |ScopeAfterList(e.ct, scope, es)| <= |frame|
    ensures Spared(scope, frame, EvalTry(e, p, sp, scope, w, frame, es).frame)
    decreases es, |es|
  {
    hide Eval, ScopeAfter, Apply;
    var s0 := scope + [None];
    var s1 := ScopeAfter(e.ct, s0, es[1]);
    var q := p.(tp := p.tp + 1);
    EvalSpares(e, q, sp, s0, w, frame, es[1]);
    var r := Eval(e, q, sp, s0, w, frame, es[1]);
    assert Spared(scope, frame, r.frame);
    if p.tp < VM_TRAP_SIZE && r.out.Err? && sp < VM_STACK_SIZE {
      var f := r.frame[|scope| := Some(r.out.payload)];
      assert Spared(scope, frame, f);
      EvalSpares(e, p, sp, s1, r.w, f, es[2]);
      SparedThen(scope, s1, frame, f, Eval(e, p, sp, s1, r.w, f, es[2]).frame);
    }
  }

  lemma {:induction false} AllSpares(e: Env, p: Place, sp: nat, scope: Scope, w: World, frame: seq<Slot>,
                                     es: seq<Ast>, i: nat)
    requires i <= |es| && |ScopeAfterAll(e.ct, scope, es, i)| <= |frame|
    ensures Spared(scope, frame, EvalAll(e, p, sp, scope, w, frame, es, i).frame)
    decreases es, |es| - i
  {
    hide Eval, ScopeAfter;
    if i < |es| {
      EvalSpares(e, p, sp, scope, w, frame, es[i]);
      var h := Eval(e, p, sp, scope, w, frame, es[i]);
      var s1 := ScopeAfter(e.ct, scope, es[i]);
      if h.out.Ok? {
        AllSpares(e, p, sp + 1, s1, h.w, h.frame, es, i + 1);
        SparedThen(scope, s1, frame, h.frame, EvalAll(e, p, sp + 1, s1, h.w, h.frame, es, i + 1).frame);
      }
    }
  }

  lemma {:induction false} SeqSpares(e: Env, p: Place, sp: nat, scope: Scope, w: World, frame: seq<Slot>,
                                     es: seq<Ast>, i: nat)
    requires i < |es| && |ScopeAfterAll(e.ct, scope, es, i)| <= |frame|
    ensures Spared(scope, frame, EvalSeq(e, p, sp, scope, w, frame, es, i).frame)
    decreases es, |es| - i
  {
    hide Eval, ScopeAfter;
    EvalSpares(e, p, sp, scope, w, frame, es[i]);
    var h := Eval(e, p, sp, scope, w, frame, es[i]);
    var s1 := ScopeAfter(e.ct, scope, es[i]);
    if h.out.Ok? && i + 1 < |es| {
      SeqSpares(e, p, sp, s1, h.w, h.frame, es, i + 1);
      SparedThen(scope, s1, frame, h.frame, EvalSeq(e, p, sp, s1, h.w, h.frame, es, i + 1).frame);
    }
  }

  // ----- try -----

  /** The body's value; or, when it raised an error, what the handler makes of exactly the
      payload raised, in the frame the body left. Sixteen guarded forms may be under way at
      a time, and the payload needs its place on the stack. */
  lemma TryCatches(e: Env, p: Place, sp: nat, scope: Scope, w: World, frame: seq<Slot>, es: seq<Ast>)
    requires |es| == 3 && es[0] == Name(SfTry) && Fits(e, scope, frame, es)
    ensures var s0 := scope + [None];
            var r := Eval(e, p.(tp := p.tp + 1), sp, s0, w, frame, es[1]);
            EvalList(e, p, sp, scope, w, frame, es) ==
            if p.tp >= 16 then Res(w, frame, Err(I64(0)))
            else if r.out.Ok? then r
            else if sp >= 1024 then Res(r.w, r.frame, Err(I64(0)))
            else
              var payload := r.out.payload;
              var h := Eval(e, p, sp, ScopeAfter(e.ct, s0, es[1]), r.w, r.frame[|scope| := Some(payload)], es[2]);
              if h.out.Err? then h
              else if sp >= 1023 then Res(h.w, h.frame, Err(I64(0)))
              else
                var c := Apply(e, p.rp, p.tp, sp, h.w, h.out.v, [payload]);
                Res(c.w, h.frame, c.out)
  {
    hide Eval, ScopeAfter, Apply;
    var s0 := scope + [None];
    var s1 := ScopeAfter(e.ct, s0, es[1]);
    var r := Eval(e, p.(tp := p.tp + 1), sp, s0, w, frame, es[1]);
    if r.out.Err? {
      EvalSpares(e, p, sp, s1, r.w, r.frame[|scope| := Some(r.out.payload)], es[2]);
      assert s1[|scope|] == s0[|scope|] == None;
    }
  }

  // ----- limits -----

  /** A literal is itself, on a stack of less than 1024 values. */
  lemma LiteralRead(e: Env, p: Place, sp: nat, scope: Scope, w: World, frame: seq<Slot>, v: Value)
    requires |scope| <= |frame|
    ensures Eval(e, p, sp, scope, w, frame, Lit(v)) == Res(w, frame, if sp < 1024 then Ok(v) else Err(I64(0)))
  {
  }

  /** A call of a builtin needs a place on the stack before its arguments are looked at. */
  lemma BuiltinRunsOut(e: Env, p: Place, sp: nat, scope: Scope, w: World, frame: seq<Slot>, es: seq<Ast>, f: Prim)
    requires es != [] && NamesBuiltin(e, es[0], f) && Fits(e, scope, frame, es) && sp >= 1024
    ensures EvalList(e, p, sp, scope, w, frame, es) == Res(w, frame, Err(I64(0)))
  {
    hide EvalAll, Apply;
  }

  /** A `let` needs room for the second copy of its value. */
  lemma LetRunsOut(e: Env, p: Place, sp: nat, scope: Scope, w: World, frame: seq<Slot>, es: seq<Ast>, s: Sym)
    requires |es| == 3 && es[0] == Name(SfLet) && es[1] == Name(s) && Fits(e, scope, frame, es) && sp + 1 >= 1024
    requires Eval(e, p, sp, scope, w, frame, es[2]).out.Ok?
    ensures var v := Eval(e, p, sp, scope, w, frame, es[2]);
            EvalList(e, p, sp, scope, w, frame, es) == Res(v.w, v.frame, Err(I64(0)))
  {
    hide Eval;
  }

  // ----- calls -----

  /** Forms evaluated dynamically, as a whole. */
  lemma LeftToHost(e: Env, p: Place, sp: nat, scope: Scope, w: World, frame: seq<Slot>, es: seq<Ast>)
    requires es != [] && es[0].Name? && Fits(e, scope, frame, es)
    requires || (es[0].s == SfSet && |es| == 3) || (es[0].s == SfFn && |es| >= 3)
             || (es[0].s.Id? && es[0].s in e.ct && e.ct[es[0].s].special)
    ensures var d := e.host.dyn(w, es);
            EvalList(e, p, sp, scope, w, frame, es) ==
            if sp < 1024 then Res(d.w, frame, d.out) else Res(w, frame, Err(I64(0)))
  {
  }

  /** The forms behind the head are the literals `vs`. */
  ghost predicate LiteralArgs(es: seq<Ast>, vs: seq<Value>) {
    |es| == |vs| + 1 && forall k :: 0 <= k < |vs| ==> es[k + 1] == Lit(vs[k])
  }

  lemma {:induction false} LiteralsRead(e: Env, p: Place, sp: nat, scope: Scope, w: World, frame: seq<Slot>,
                                        es: seq<Ast>, vs: seq<Value>, i: nat)
    requires LiteralArgs(es, vs) && 1 <= i <= |es| && |scope| <= |frame| && sp + |es| - i <= 1024
    ensures ScopeAfterAll(e.ct, scope, es, i) == scope
    ensures EvalAll(e, p, sp, scope, w, frame, es, i) == ArgsRes(w, frame, Vals(vs[i - 1..]))
    decreases |es| - i
  {
    if i < |es| {
      assert es[i] == Lit(vs[i - 1]) && ScopeAfter(e.ct, scope, es[i]) == scope;
      assert Eval(e, p, sp, scope, w, frame, es[i]) == Res(w, frame, Ok(vs[i - 1]));
      LiteralsRead(e, p, sp + 1, scope, w, frame, es, vs, i + 1);
      assert [vs[i - 1]] + vs[i..] == vs[i - 1..];
    }
  }

  /** A builtin gets its arguments in their order: the first of them, the first two or all,
      as is its kind, and it is an error if there are fewer. */
  lemma BuiltinGets(e: Env, p: Place, sp: nat, scope: Scope, w: World, frame: seq<Slot>, es: seq<Ast>, f: Prim,
                    vs: seq<Value>)
    requires LiteralArgs(es, vs) && NamesBuiltin(e, es[0], f) && Fits(e, scope, frame, es) && sp + |es| <= 1024
    ensures var r := EvalList(e, p, sp, scope, w, frame, es);
            if (f.kind == Unary && vs == []) || (f.kind == Binary && |vs| < 2)
            then r == Res(w, frame, Err(ErrObj(Arity)))
            else
              var d := e.host.call(w, f, if f.kind == Unary then [vs[0]] else if f.kind == Binary then [vs[0], vs[1]]
                                         else vs);
              r == Res(d.w, frame, d.out)
  {
    hide EvalAll;
    LiteralsRead(e, p, sp + 1, scope, w, frame, es, vs, 1);
    assert EvalList(e, p, sp, scope, w, frame, es) == EvalBuiltin(e, p, sp, scope, w, frame, es, f);
    assert Apply(e, p.rp, p.tp, sp, w, Builtin(f), vs) == ApplyBuiltin(e, w, f, vs);
    assert vs[0..] == vs && (|vs| >= 1 ==> vs[..1] == [vs[0]]) && (|vs| >= 2 ==> vs[..2] == [vs[0], vs[1]]);
  }

  /** Of two arguments the left is evaluated first, and the right in the state it leaves;
      the first error is that of the call. */
  lemma LeftFirst(e: Env, p: Place, sp: nat, scope: Scope, w: World, frame: seq<Slot>, es: seq<Ast>, f: Prim)
    requires |es| == 3 && NamesBuiltin(e, es[0], f) && f.kind == Binary && Fits(e, scope, frame, es) && sp < 1024
    ensures var s1 := ScopeAfter(e.ct, scope, es[1]);
            |s1| <= |frame| && |ScopeAfter(e.ct, s1, es[2])| <= |frame|
    ensures var s1 := ScopeAfter(e.ct, scope, es[1]);
            var a := Eval(e, p, sp + 1, scope, w, frame, es[1]);
            EvalList(e, p, sp, scope, w, frame, es) ==
            if a.out.Err? then a
            else
              var b := Eval(e, p, sp + 2, s1, a.w, a.frame, es[2]);
              if b.out.Err? then b
              else var d := e.host.call(b.w, f, [a.out.v, b.out.v]); Res(d.w, b.frame, d.out)
  {
    hide Eval, EvalAll, ScopeAfterList, ScopeAfterAll;
    PairScope(e, scope, es, f);
    TwoArgs(e, p, sp + 1, scope, w, frame, es);
    assert EvalList(e, p, sp, scope, w, frame, es) == EvalBuiltin(e, p, sp, scope, w, frame, es, f);
    var r := EvalAll(e, p, sp + 1, scope, w, frame, es, 1);
    if r.out.Vals? {
      assert Apply(e, p.rp, p.tp, sp, r.w, Builtin(f), r.out.vs) == ApplyBuiltin(e, r.w, f, r.out.vs);
      assert r.out.vs[..2] == r.out.vs;
    }
  }

  lemma TwoArgs(e: Env, p: Place, sp: nat, scope: Scope, w: World, frame: seq<Slot>, es: seq<Ast>)
    requires |es| == 3 && |ScopeAfterAll(e.ct, scope, es, 1)| <= |frame|
    ensures var s1 := ScopeAfter(e.ct, scope, es[1]);
            |ScopeAfter(e.ct, s1, es[2])| <= |frame| && |s1| <= |frame|
    ensures var s1 := ScopeAfter(e.ct, scope, es[1]);
            var a := Eval(e, p, sp, scope, w, frame, es[1]);
            EvalAll(e, p, sp, scope, w, frame, es, 1) ==
            if a.out.Err? then ArgsRes(a.w, a.frame, Bad(a.out.payload))
            else
              var b := Eval(e, p, sp + 1, s1, a.w, a.frame, es[2]);
              ArgsRes(b.w, b.frame, if b.out.Err? then Bad(b.out.payload) else Vals([a.out.v, b.out.v]))
  {
    hide Eval;
    var s1 := ScopeAfter(e.ct, scope, es[1]);
    assert ScopeAfterAll(e.ct, s1, es, 2) == ScopeAfter(e.ct, s1, es[2]);
    var a := Eval(e, p, sp, scope, w, frame, es[1]);
    if a.out.Ok? {
      var b := Eval(e, p, sp + 1, s1, a.w, a.frame, es[2]);
      if b.out.Ok? {
        assert EvalAll(e, p, sp + 2, ScopeAfter(e.ct, s1, es[2]), b.w, b.frame, es, 3) ==
          ArgsRes(b.w, b.frame, Vals([]));
        assert [b.out.v] + [] == [b.out.v] && [a.out.v] + [b.out.v] == [a.out.v, b.out.v];
      }
      assert EvalAll(e, p, sp + 1, s1, a.w, a.frame, es, 2) ==
             ArgsRes(b.w, b.frame, if b.out.Err? then Bad(b.out.payload) else Vals([b.out.v]));
    }
  }

  /** A called value: what is no function cannot be called; a lambda without bytecode is
      walked; a compiled one needs a frame within the limits, then as many arguments as it
      has parameters, and runs its body on them. */
  lemma ValueCalled(e: Env, p: Place, sp: nat, scope: Scope, w: World, frame: seq<Slot>, es: seq<Ast>, vs: seq<Value>)
    requires LiteralArgs(es, vs) && es[0].Lit? && !es[0].v.Builtin? && Fits(e, scope, frame, es) && sp + |es| <= 1024
    ensures var f := es[0].v;
            var r := EvalList(e, p, sp, scope, w, frame, es);
            if !f.Lam? then r == Res(w, frame, Err(ErrObj(Type)))
            else if CodeOf(e.ct, f).None? then var d := e.host.walk(w, f, vs); r == Res(d.w, frame, d.out)
            else if p.rp >= 1024 || sp + CodeOf(e.ct, f).value.nLocals >= 1024 then r == Res(w, frame, Err(I64(0)))
            else if |vs| != |f.params| then r == Res(w, frame, Err(ErrObj(Arity)))
            else var d := RunBody(e, Place(f, p.rp + 1, p.tp), sp, w, vs); r == Res(d.w, frame, d.out)
  {
    hide RunBody, CodeOf, EvalAll;
    LiteralsRead(e, p, sp + 1, scope, w, frame, es, vs, 1);
    assert vs[0..] == vs;
    assert EvalList(e, p, sp, scope, w, frame, es) == EvalCall(e, p, sp, scope, w, frame, es);
    assert Eval(e, p, sp, scope, w, frame, es[0]) == Res(w, frame, Ok(es[0].v));
    var c := Apply(e, p.rp, p.tp, sp, w, es[0].v, vs);
    assert EvalCall(e, p, sp, scope, w, frame, es) == Res(c.w, frame, c.out);
  }

  /** A self-call runs the running lambda's body on its arguments, whatever their number,
      if a frame is within the limits. */
  lemma SelfCalled(e: Env, p: Place, sp: nat, scope: Scope, w: World, frame: seq<Slot>, es: seq<Ast>, vs: seq<Value>)
    requires LiteralArgs(es, vs) && es[0] == Name(SfSelf) && Fits(e, scope, frame, es) && sp + |vs| <= 1024
    requires CodeOf(e.ct, p.fn).Some?
    ensures p.fn.Lam?
    ensures var r := EvalList(e, p, sp, scope, w, frame, es);
            if p.rp >= 1024 || sp + |vs| + CodeOf(e.ct, p.fn).value.nLocals >= 1024
            then r == Res(w, frame, Err(I64(0)))
            else var d := RunBody(e, p.(rp := p.rp + 1), sp, w, vs); r == Res(d.w, frame, d.out)
  {
    hide RunBody, CodeOf, EvalAll, CallSelf;
    LiteralsRead(e, p, sp, scope, w, frame, es, vs, 1);
    OnlyLambda(e.ct, p.fn);
    assert vs[0..] == vs;
    SelfRuns(e, p, sp, w, vs);
  }

  lemma SelfRuns(e: Env, p: Place, sp: nat, w: World, vs: seq<Value>)
    requires CodeOf(e.ct, p.fn).Some? && p.fn.Lam?
    ensures CallSelf(e, p, sp + |vs|, w, vs) ==
            if p.rp >= 1024 || sp + |vs| + CodeOf(e.ct, p.fn).value.nLocals >= 1024 then Reply(w, Err(I64(0)))
            else RunBody(e, p.(rp := p.rp + 1), sp, w, vs)
  {
    hide CodeOf;
  }

  lemma OnlyLambda(ct: Builtins, f: Value)
    requires CodeOf(ct, f).Some?
    ensures f.Lam?
  {
  }

  /** A lambda's body is a `do` of its forms, in slots that hold the arguments in their
      order and are unset from there on. */
  lemma BodyIsDo(e: Env, p: Place, fp: nat, w: World, args: seq<Value>)
    requires p.fn.Lam? && CodeOf(e.ct, p.fn).Some? && p.fn.body != []
    ensures var n := CodeOf(e.ct, p.fn).value.nLocals;
            var scope: Scope := seq(|p.fn.params|, i requires 0 <= i < |p.fn.params| => Some(p.fn.params[i]));
            var frame: seq<Slot> := seq(n, i requires 0 <= i < n => if i < |args| then Some(args[i]) else None);
            var es := [Name(SfDo)] + p.fn.body;
            && Fits(e, scope, frame, es)
            && var r := EvalList(e, p, fp + (if |args| > n then |args| else n), scope, w, frame, es);
               RunBody(e, p, fp, w, args) == Reply(r.w, r.out)
  {
    var n := CodeOf(e.ct, p.fn).value.nLocals;
    FrameSize(e.ct, p.fn);
    hide CodeOf;
    var scope: Scope := seq(|p.fn.params|, i requires 0 <= i < |p.fn.params| => Some(p.fn.params[i]));
    var frame: seq<Slot> := seq(n, i requires 0 <= i < n => if i < |args| then Some(args[i]) else None);
    var es := [Name(SfDo)] + p.fn.body;
    assert scope == ParamScope(p.fn.params) && frame == Fresh(args, n) && es[1..] == p.fn.body[0..];
    SeqShift(e, p, fp + Height(args, n), scope, w, frame, p.fn.body, 0, es, 1);
  }

  /** An empty body gives null, or the last of the arguments that have no slot. */
  lemma EmptyBody(e: Env, p: Place, fp: nat, w: World, args: seq<Value>)
    requires p.fn.Lam? && CodeOf(e.ct, p.fn).Some? && p.fn.body == []
    ensures var n := CodeOf(e.ct, p.fn).value.nLocals;
            RunBody(e, p, fp, w, args) == Reply(w, Ok(if |args| > n then args[|args| - 1] else Null))
  {
  }

  /** Parameters are the arguments: the lambda that gives back one of them does. */
  lemma ParameterIsArgument(e: Env, w: World, params: seq<Sym>, args: seq<Value>, i: nat)
    requires i < |params| == |args| && forall j :: i < j < |params| ==> params[j] != params[i]
    requires CodeOf(e.ct, Lam(params, [Name(params[i])])).Some?
    ensures Call(e, w, Lam(params, [Name(params[i])]), args) == Reply(w, Ok(args[i]))
  {
    hide CodeOf;
    var fn := Lam(params, [Name(params[i])]);
    var n := CodeOf(e.ct, fn).value.nLocals;
    FrameSize(e.ct, fn);
    LocalRead(e, Place(fn, 0, 0), n, ParamScope(params), w, Fresh(args, n), params[i], i);
    var r := Eval(e, Place(fn, 0, 0), n, ParamScope(params), w, Fresh(args, n), fn.body[0]);
    assert EvalSeq(e, Place(fn, 0, 0), n, ParamScope(params), w, Fresh(args, n), fn.body, 0) == r;
  }

  lemma {:induction false} AllShift(e: Env, p: Place, sp: nat, scope: Scope, w: World, frame: seq<Slot>,
                                    es: seq<Ast>, fs: seq<Ast>, i: nat)
    requires 1 <= i <= |es| == |fs| && es[1..] == fs[1..] && |ScopeAfterAll(e.ct, scope, es, i)| <= |frame|
    ensures ScopeAfterAll(e.ct, scope, es, i) == ScopeAfterAll(e.ct, scope, fs, i)
    ensures EvalAll(e, p, sp, scope, w, frame, es, i) == EvalAll(e, p, sp, scope, w, frame, fs, i)
    decreases |es| - i
  {
    hide Eval;
    assert es[i..] == es[1..][i - 1..] == fs[1..][i - 1..] == fs[i..];
    SameScope(e.ct, scope, es, i, fs, i);
    if i < |es| {
      assert es[i] == es[1..][i - 1] == fs[i];
      var h := Eval(e, p, sp, scope, w, frame, es[i]);
      if h.out.Ok? { AllShift(e, p, sp + 1, ScopeAfter(e.ct, scope, es[i]), h.w, h.frame, es, fs, i + 1); }
    }
  }

  /** No form of its own: a name that is not a builtin's, and not that of a special form
      with as many parts as it takes. */
  ghost predicate PlainHead(ct: Builtins, es: seq<Ast>) {
    && es != [] && es[0].Name? && es[0].s !in ct && es[0].s != SfSelf
    && (es[0].s == SfSet || es[0].s == SfLet || es[0].s == SfTry ==> |es| != 3)
    && (es[0].s == SfIf || es[0].s == SfFn ==> |es| < 3)
    && (es[0].s == SfDo ==> |es| < 2)
  }

  /** Such a name calls its value. */
  lemma PlainCall(e: Env, p: Place, sp: nat, scope: Scope, w: World, frame: seq<Slot>, es: seq<Ast>, v: Value)
    requires PlainHead(e.ct, es) && Fits(e, scope, frame, es)
    requires Eval(e, p, sp, scope, w, frame, es[0]) == Res(w, frame, Ok(v))
    ensures Fits(e, scope, frame, [Lit(v)] + es[1..])
    ensures EvalList(e, p, sp, scope, w, frame, es) == EvalList(e, p, sp, scope, w, frame, [Lit(v)] + es[1..])
  {
    hide EvalAll, Apply, CodeOf;
    var fs := [Lit(v)] + es[1..];
    assert fs[1..] == es[1..];
    SameScope(e.ct, scope, es, 1, fs, 1);
    assert ShapeOf(e.ct, es) == ShCall == ShapeOf(e.ct, fs);
    assert ScopeAfterList(e.ct, scope, es) == ScopeAfterAll(e.ct, scope, es, 1);
    AllShift(e, p, sp + 1, scope, w, frame, es, fs, 1);
    PushedWithin(e, p, sp, scope, w, frame, es[0]);
    assert Eval(e, p, sp, scope, w, frame, fs[0]) == Res(w, frame, Ok(v));
    assert EvalList(e, p, sp, scope, w, frame, es) == EvalCall(e, p, sp, scope, w, frame, es);
    assert EvalList(e, p, sp, scope, w, frame, fs) == EvalCall(e, p, sp, scope, w, frame, fs);
  }

  lemma PushedWithin(e: Env, p: Place, sp: nat, scope: Scope, w: World, frame: seq<Slot>, a: Ast)
    requires a.Name? && |scope| <= |frame| && Eval(e, p, sp, scope, w, frame, a).out.Ok?
    ensures sp < VM_STACK_SIZE
  {
  }
}
