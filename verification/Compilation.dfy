/** The code generator preserves meaning: on the virtual machine its code computes what an expression means. */
module Compilation {
  import opened Stores
  import opened Scheme
  import opened CodeGenerator
  import opened Machine
  import opened Worlds
  import opened Execution
  import opened Instructions
  import opened Applications

  /** The machine is about to run `code` in an activation whose stack fits the context. */
  ghost predicate Ready(p: Point, links: Links, c: Context, env: Env, free: set<Name>, code: Code, n: nat,
                        caller: Caller) {
    && Holds(p) && LinksIn(links, p.s.words) && HasCode(p.w, p.s.code.index, code)
    && HasEnv(View(p.w, links), c, p.s.stack.index, env, free)
    && HasFrame(p.w, p.s.stack.index, n, caller, links) && n < |p.s.words|
  }

  /** The links that a closure keeps if one is made. */
  function Own(closes: bool, links: Links): set<nat> {
    if closes then links.Keys else {}
  }

  /** After some steps the machine has arrived at what follows with the value, or has failed with the error. */
  ghost predicate Delivers(p: Point, steps: nat, q: Point, o: Outcome<Data>, k: Code, base: nat, caller: Caller,
                           exposed: bool, own: set<nat>) {
    match o
    case Done(d, st) =>
      && Runs(p, steps, q, own, Turn(k)) && q.st == st
      && Arrived(q, k, base, caller, d, exposed, |p.s.words|)
    case Wrong(e) => Fails(p.s, steps, e)
    case Undefined => true
  }

  lemma {:induction false} DeliversAfter(p: Point, m: nat, r: Point, n: nat, q: Point, o: Outcome<Data>, k: Code,
                                         base: nat, caller: Caller, exposed: bool, own: set<nat>, own': set<nat>)
    requires Runs(p, m, r, own) && Delivers(r, n, q, o, k, base, caller, exposed, own')
    requires forall j :: j in own' ==> j in own || j >= |p.s.words|
    ensures Delivers(p, m + n, q, o, k, base, caller, exposed, own)
  {
    hide Reaches, Fails, IsData, Holds, HasCode;
    match o
    case Done(d, st) =>
      RunsOn(p, m, r, n, q, own, own', Turn(k));
      EvolvesWords(p, r, own);
    case Wrong(e) => FailsOn(p.s, m, r.s, n, e, 0);
    case Undefined =>
  }

  /** The value is on the stack unless it is returned or dropped. */
  lemma {:induction false} Delivered(p: Point, steps: nat, q: Point, o: Outcome<Data>, k: Code, base: nat,
                                     caller: Caller, exposed: bool, own: set<nat>)
    requires Delivers(p, steps, q, o, k, base, caller, exposed, own) && o.Done? && !k.Return? && !IsDrop(k)
    ensures Runs(p, steps, q, own) && q.st == o.store && Holds(q) && HasCode(q.w, q.s.code.index, k)
    ensures IsTop(q, o.value, base, exposed, |p.s.words|)
  {
  }

  lemma {:induction false} UndefinedDelivers(p: Point, steps: nat, q: Point, k: Code, base: nat, caller: Caller,
                                             exposed: bool, own: set<nat>)
    ensures Delivers(p, steps, q, Undefined, k, base, caller, exposed, own)
  {
  }

  lemma {:induction false} RunsEvolves(p: Point, steps: nat, q: Point, own: set<nat>, turn: int := 0)
    requires Runs(p, steps, q, own, turn)
    ensures Evolves(p, q, own)
  {
  }

  lemma {:induction false} DeliversWrong(p: Point, steps: nat, q: Point, e: VmError, k: Code, base: nat,
                                         caller: Caller, exposed: bool, own: set<nat>, k': Code, base': nat,
                                         exposed': bool, own': set<nat>)
    requires Delivers(p, steps, q, Wrong(e), k, base, caller, exposed, own)
    ensures Delivers(p, steps, q, Wrong(e), k', base', caller, exposed', own')
  {
  }

  lemma {:induction false} RunsWider(p: Point, steps: nat, q: Point, own: set<nat>, more: set<nat>)
    requires Runs(p, steps, q, own) && own <= more
    ensures Runs(p, steps, q, more)
  {
    hide Reaches;
  }

  lemma {:induction false} EvolvesWords(p: Point, q: Point, own: set<nat> := {})
    requires Evolves(p, q, own)
    ensures |p.s.words| <= |q.s.words| && Grows(p.w, q.w)
  {
  }

  lemma {:induction false} EnvFewer(w: World, c: Context, stack: nat, env: Env, names: set<Name>, fewer: set<Name>)
    requires HasEnv(w, c, stack, env, names) && fewer <= names
    ensures HasEnv(w, c, stack, env, fewer)
  {
  }

  /** What an activation relies on stays as it is. */
  lemma {:induction false} StackStays(p: Point, q: Point, own: set<nat>, links: Links, c: Context, base: nat, env: Env,
                                      free: set<Name>, n: nat, caller: Caller)
    requires Holds(p) && Evolves(p, q, own) && LinksIn(links, p.s.words)
    requires HasEnv(View(p.w, links), c, base, env, free)
    requires HasFrame(p.w, base, n, caller, links) && n < |p.s.words|
    ensures LinksIn(links, q.s.words) && HasEnv(View(q.w, links), c, base, env, free)
    ensures HasFrame(q.w, base, n, caller, links) && n < |q.s.words| && Grows(p.w, q.w)
  {
    hide HasEnv, HasFrame, Holds, IsData, HasPrimitive;
    EvolvesWords(p, q, own);
    LinksStay(p, q, links, own);
    ViewGrows(p.w, q.w, links);
    EnvGrows(View(p.w, links), View(q.w, links), c, base, env, free);
    FrameGrows(p.w, q.w, base, n, caller, links);
  }

  /** The same activation at a later point. */
  lemma {:induction false} ReadyLater(p: Point, q: Point, own: set<nat>, links: Links, c: Context, env: Env,
                                      free: set<Name>, k: Code, n: nat, caller: Caller, fewer: set<Name>, code: Code)
    requires Ready(p, links, c, env, free, k, n, caller) && fewer <= free && Evolves(p, q, own)
    requires Holds(q) && HasCode(q.w, q.s.code.index, code) && q.s.stack.index == p.s.stack.index
    ensures Ready(q, links, c, env, fewer, code, n, caller)
  {
    hide HasCode, Holds, HasEnv, HasFrame, LinksIn, Evolves;
    StackStays(p, q, own, links, c, p.s.stack.index, env, free, n, caller);
    EnvFewer(View(q.w, links), c, p.s.stack.index, env, free, fewer);
  }

  // ----- constants, variables and procedures -----

  lemma {:induction false} ConstantRuns(l: Literal, k: Code, p: Point, links: Links, n: nat, caller: Caller)
    returns (steps: nat, q: Point)
    requires Holds(p) && HasCode(p.w, p.s.code.index, Push(Quoted(l), k)) && IsContinuation(k)
    requires HasFrame(p.w, p.s.stack.index, n, caller, links) && n < |p.s.words| && LinksIn(links, p.s.words)
    ensures Delivers(p, steps, q, Done(Plain(l), p.st), k, p.s.stack.index, caller, false, {})
  {
    hide Reaches, IsData, Holds, HasCode, HasFrame, ExecuteOf, IsSimple, LinksIn;
    FrameInside(p, links, p.s.stack.index, n, caller);
    var q1 := PushConstant(p, l, k);
    steps, q := Settle(p, q1, k, p.s.stack.index, n, caller, Plain(l), false, |p.s.words|, links);
  }

  lemma {:induction false} VariableRuns(x: Name, env: Env, c: Context, k: Code, p: Point, links: Links, n: nat,
                                        caller: Caller)
    returns (steps: nat, q: Point)
    requires IsContinuation(k) && Ready(p, links, c, env, {x}, Get(Resolve(c, x), k), n, caller)
    ensures Delivers(p, steps, q, Look(env, x, p.st), k, p.s.stack.index, caller, false, {})
  {
    hide Reaches, IsData, Holds, HasCode, HasFrame, ExecuteOf, HasEnv, IsSimple, LinksIn;
    if Look(env, x, p.st).Done? {
      FrameInside(p, links, p.s.stack.index, n, caller);
      var q1 := GetVariable(p, links, c, env, x, k);
      steps, q := Settle(p, q1, k, p.s.stack.index, n, caller, p.st[env[x]], false, |p.s.words|, links);
    } else {
      steps, q := 0, p;
    }
  }

  /** A procedure without free variables needs no environment. */
  lemma {:induction false} NoEnvNeeded(w: World, links: Links, c: Context, stack: nat, env: Env,
                                       free: set<Name>)
    requires HasEnv(View(w, links), c, stack, env, free) && free * NamesOf(c) <= {} && OPERATOR !in free
    ensures HasEnv(w, c, w.nil, env, free)
  {
    forall x | x in free && x in env
      ensures VariableCell(w, c, w.nil, x) == VariableCell(View(w, links), c, stack, x)
    {
      assert x in NamesOf(c) ==> x in free * NamesOf(c);
      NotInContext(c, x);
    }
  }

  lemma {:induction false} NotInContext(c: Context, x: Name)
    requires x !in NamesOf(c) && x != OPERATOR
    ensures CodeGenerator.IndexOf(c, x) == -1
  {
    if c != [] {
      assert forall i :: 0 <= i < |c[1..]| ==> c[1..][i] == c[i + 1];
      NotInContext(c[1..], x);
      assert c[0] != Local(x);
    }
  }

  lemma {:induction false} ProcedureRuns(f: Procedure, env: Env, c: Context, k: Code, p: Point, links: Links, n: nat,
                                         caller: Caller)
    returns (steps: nat, q: Point)
    requires Compilable(Lambda(f)) && Analyzed(NamesOf(c), Lambda(f)) && IsContinuation(k)
    requires Ready(p, links, c, env, Free(Lambda(f)), Compile(c, Lambda(f), k), n, caller)
    ensures Delivers(p, steps, q, Done(Closure(f, env), p.st), k, p.s.stack.index, caller, false,
                     Own(f.free != {}, links))
  {
    hide Reaches, IsData, Holds, HasCode, HasFrame, ExecuteOf, HasEnv, CompileProcedure, SequenceCompilable,
         SequenceAnalyzed, IsSimple, LinksIn, Evolves;
    var base, low, free := p.s.stack.index, |p.s.words|, Free(Lambda(f));
    FrameInside(p, links, base, n, caller);
    if f.free == {} {
      FreeIsNotOperator(Lambda(f));
      NoEnvNeeded(p.w, links, c, base, env, free);
      var q1 := PushProcedure(p, c, env, f, k);
      steps, q := Settle(p, q1, k, base, n, caller, Closure(f, env), false, low, links);
    } else {
      var k1 := Code.Call(2, Symbol("$$close"), k);
      EmptyEnv(p.w, c, free);
      var q1 := PushProcedure(p, c, map[], f, k1);
      var r := Fetch(p, q1, k1, Closure(f, map[]), base, false, low);
      RunsEvolves(p, 1, r, {});
      StackStays(p, r, {}, links, c, base, env, free, n, caller);
      steps, q := CloseRuns(p, r, links, c, env, f, k, base, n, caller);
      RunsWider(p, 1, r, {}, links.Keys);
      DeliversAfter(p, 1, r, steps, q, Done(Closure(f, env), p.st), k, base, caller, false, links.Keys, links.Keys);
      steps := 1 + steps;
    }
  }

  /** The links of the stack that the closure keeps no longer change. */
  lemma {:induction false} CloseRuns(o: Point, p: Point, links: Links, c: Context, env: Env, f: Procedure, k: Code,
                                     base: nat, n: nat, caller: Caller)
    returns (steps: nat, q: Point)
    requires Holds(p) && HasCode(p.w, p.s.code.index, Code.Call(2, Symbol("$$close"), k)) && IsContinuation(k)
    requires IsTop(p, Closure(f, map[]), base, false, |o.s.words|)
    requires HasConstant(p.w, CompileProcedure(c, f), p.s.words[p.s.stack.index])
    requires HasEnv(View(p.w, links), c, base, env, Free(Lambda(f)))
    requires Compilable(Lambda(f)) && Analyzed(NamesOf(c), Lambda(f))
    requires LinksIn(links, o.s.words) && LinksIn(links, p.s.words)
    requires HasFrame(p.w, base, n, caller, links) && n < |p.s.words|
    ensures Delivers(p, steps, q, Done(Closure(f, env), p.st), k, base, caller, false, links.Keys)
  {
    hide Reaches, IsData, Holds, HasCode, HasFrame, ExecuteOf, HasEnv, CompileProcedure, Compilable, Analyzed, IsSimple,
         HasConstant, Evolves;
    var t := Linked(p, links);
    Linking(p, links);
    LinksAgree(p, links);
    CodeGrows(p.w, t.w, p.s.code.index, Code.Call(2, Symbol("$$close"), k));
    ConstantGrows(p.w, t.w, CompileProcedure(c, f), p.s.words[p.s.stack.index]);
    FrameGrows(p.w, t.w, base, n, caller, links);
    TopLinked(o, p, links, Closure(f, map[]), base);
    var q1 := CloseTop(t, c, env, f, k, Closure(f, map[]), base, |o.s.words|);
    PushesIs(t, q1, k, Closure(f, env), base);
    steps, q := Settle(t, q1, k, base, n, caller, Closure(f, env), false, |t.s.words|, links);
    RunsEvolves(t, steps, q, {}, Turn(k));
    EvolvesTrans(p, t, q, links.Keys, {});
  }

  lemma {:induction false} TopLinked(o: Point, p: Point, links: Links, d: Data, base: nat)
    requires Holds(p) && IsTop(p, d, base, false, |o.s.words|)
    requires LinksIn(links, o.s.words) && LinksIn(links, p.s.words)
    ensures IsTop(Linked(p, links), d, base, false, |o.s.words|)
  {
    hide IsData, HasPrimitive;
    LinksAgree(p, links);
    DataGrows(p.w, View(p.w, links), d, p.s.words[p.s.stack.index]);
  }

  lemma {:induction false} EmptyEnv(w: World, c: Context, free: set<Name>)
    ensures HasEnv(w, c, w.nil, map[], free)
  {
  }

  lemma {:induction false} FreeIsNotOperator(e: Expr)
    requires Compilable(e)
    ensures OPERATOR !in Free(e)
    decreases e
  {
    match e
    case Constant(_) =>
    case Variable(_) =>
    case Assign(_, e1) => FreeIsNotOperator(e1);
    case If(a, b, c) =>
      FreeIsNotOperator(a);
      FreeIsNotOperator(b);
      FreeIsNotOperator(c);
    case Begin(es) => FreeInSequenceIsNotOperator(es);
    case Let(bs) => FreeInBindingsIsNotOperator(bs);
    case Lambda(p) => FreeInSequenceIsNotOperator(p.body);
    case Call(f, es) =>
      FreeIsNotOperator(f);
      FreeInArgumentsIsNotOperator(es);
    case Apply(f, es) =>
      FreeIsNotOperator(f);
      FreeInArgumentsIsNotOperator(es);
  }

  lemma {:induction false} FreeInSequenceIsNotOperator(es: Sequence)
    requires SequenceCompilable(es)
    ensures OPERATOR !in FreeInSequence(es)
    decreases es
  {
    FreeIsNotOperator(es.expr);
    if es.Then? {
      FreeInSequenceIsNotOperator(es.rest);
    }
  }

  lemma {:induction false} FreeInArgumentsIsNotOperator(es: Arguments)
    requires ArgumentsCompilable(es)
    ensures OPERATOR !in FreeInArguments(es)
    decreases es
  {
    if es.Argument? {
      FreeIsNotOperator(es.expr);
      FreeInArgumentsIsNotOperator(es.rest);
    }
  }

  lemma {:induction false} FreeInBindingsIsNotOperator(bs: Bindings)
    requires BindingsCompilable(bs)
    ensures OPERATOR !in FreeInInits(bs) && OPERATOR !in FreeInBody(bs)
    decreases bs
  {
    match bs
    case Body(e) => FreeIsNotOperator(e);
    case Bind(_, e, rest) =>
      FreeIsNotOperator(e);
      FreeInBindingsIsNotOperator(rest);
  }

  // ----- contexts -----

  lemma {:induction false} NamesBelow(c: Context, slot: Slot)
    ensures NamesOf([slot] + c)
            == if slot.Local? && slot.name != OPERATOR then {slot.name} + NamesOf(c) else NamesOf(c)
  {
    var d := [slot] + c;
    forall x | x in NamesOf(c) ensures x in NamesOf(d) {
      var i :| 0 <= i < |c| && c[i] == Local(x);
      assert d[i + 1] == Local(x);
    }
    assert d[0] == slot;
  }

  lemma {:induction false} NamesOfFrame(c: Context, names: seq<Name>)
    requires OPERATOR !in names
    ensures NamesOf(FrameContext(names) + c) == Named(names) + NamesOf(c)
    decreases |names|
  {
    if names == [] {
      NamesBelow(c, Hidden);
    } else {
      var n := |names| - 1;
      NamesOfFrame(c, names[..n]);
      NamesBelow(FrameContext(names[..n]) + c, Local(names[n]));
      assert FrameContext(names) + c == [Local(names[n])] + (FrameContext(names[..n]) + c);
      assert names == names[..n] + [names[n]];
    }
  }

  lemma {:induction false} HiddenIsNotDrop(c: Context, x: Name, k: Code)
    ensures !IsDrop(Set(Resolve([Hidden] + c, x), k))
  {
  }

  lemma {:induction false} EnvUnder(w: World, c: Context, slot: Slot, t: nat, base: nat, env: Env, names: set<Name>)
    requires HasNext(w, t) && Next(w, t) == base && HasEnv(w, c, base, env, names)
    requires slot.Local? ==> slot.name !in names
    ensures HasEnv(w, [slot] + c, t, env, names)
  {
    forall x | x in names && x in env ensures VariableCell(w, [slot] + c, t, x) == VariableCell(w, c, base, x) {
      CellBelow(w, c, slot, t, base, x);
    }
  }

  // ----- expressions -----

  /** Generated code does what its expression means, whatever follows it: it leaves the value on the stack, or
      drops it if it is not used, or returns it, or fails with the error that the expression fails with. On the
      way it keeps to its frame, and what it has called has returned. */
  lemma {:induction false} CompileRuns(depth: nat, e: Expr, env: Env, c: Context, k: Code, p: Point, links: Links,
                                       n: nat, caller: Caller)
    returns (steps: nat, q: Point)
    requires Compilable(e) && Analyzed(NamesOf(c), e) && IsContinuation(k)
    requires Ready(p, links, c, env, Free(e), Compile(c, e, k), n, caller)
    ensures Delivers(p, steps, q, Eval(depth, e, env, p.st), k, p.s.stack.index, caller, IsExposed(e),
                     Own(MakesClosure(e), links))
    decreases depth, 1, e, 2
  {
    hide Ready, Delivers, IsContinuation;
    match e
    case Constant(l) =>
      steps, q := ConstantRuns(l, k, p, links, n, caller) by {
        ReadyIs(p, links, c, env, Free(e), Compile(c, e, k), n, caller);
      }
    case Variable(x) => steps, q := VariableRuns(x, env, c, k, p, links, n, caller);
    case Assign(_, _) => steps, q := AssignRuns(depth, e, env, c, k, p, links, n, caller);
    case If(_, _, _) => steps, q := IfRuns(depth, e, env, c, k, p, links, n, caller);
    case Begin(es) => steps, q := SequenceRuns(depth, es, env, c, k, p, links, n, caller);
    case Let(bs) =>
      ReadyFewer(p, links, c, env, Free(e), Compile(c, e, k), n, caller, FreeInInits(bs));
      ReadyFewer(p, links, c, env, Free(e), Compile(c, e, k), n, caller, FreeInBody(bs));
      ReadyIs(p, links, c, env, FreeInBody(bs), Compile(c, e, k), n, caller);
      steps, q := LetRuns(depth, bs, env, env, c, c, k, p, links, n, caller);
    case Lambda(f) => steps, q := ProcedureRuns(f, env, c, k, p, links, n, caller);
    case Call(_, _) => steps, q := CallRuns(depth, e, env, c, k, p, links, n, caller);
    case Apply(_, _) => steps, q := CallRuns(depth, e, env, c, k, p, links, n, caller);
  }

  lemma {:induction false} ReadyIs(p: Point, links: Links, c: Context, env: Env, free: set<Name>, code: Code, n: nat,
                                   caller: Caller)
    requires Ready(p, links, c, env, free, code, n, caller)
    ensures Holds(p) && LinksIn(links, p.s.words) && HasCode(p.w, p.s.code.index, code)
    ensures HasEnv(View(p.w, links), c, p.s.stack.index, env, free)
    ensures HasFrame(p.w, p.s.stack.index, n, caller, links) && n < |p.s.words|
  {
  }

  lemma {:induction false} AssignRuns(depth: nat, e: Expr, env: Env, c: Context, k: Code, p: Point, links: Links,
                                      n: nat, caller: Caller)
    returns (steps: nat, q: Point)
    requires e.Assign? && Compilable(e) && Analyzed(NamesOf(c), e) && IsContinuation(k)
    requires Ready(p, links, c, env, Free(e), Compile(c, e, k), n, caller)
    ensures Delivers(p, steps, q, Eval(depth, e, env, p.st), k, p.s.stack.index, caller, IsExposed(e),
                     Own(MakesClosure(e), links))
    decreases depth, 1, e, 1
  {
    hide IsData, Holds, HasCode, HasFrame, HasEnv, Reaches, Resolve, Evolves, Ready, Compilable, Analyzed, Free, Fails,
         LinksIn, IsTop, NamesOf;
    var x, e1 := e.name, e.expr;
    var k0, base, own := CompileUnspecified(k), p.s.stack.index, Own(MakesClosure(e.expr), links);
    var k1 := Set(Resolve([Hidden] + c, x), k0);
    HiddenIsNotDrop(c, x, k0);
    AssignParts(c, e);
    ReadyFewer(p, links, c, env, Free(e), Compile(c, e, k), n, caller, Free(e1));
    steps, q := CompileRuns(depth, e1, env, c, k1, p, links, n, caller);
    var o := Eval(depth, e1, env, p.st);
    if o.Done? && x in env && env[x] < |o.store| {
      ReadyIs(p, links, c, env, Free(e), Compile(c, e, k), n, caller);
      EnvFewer(View(p.w, links), c, base, env, Free(e), {x});
      RunsEvolves(p, steps, q, own);
      StackStays(p, q, own, links, c, base, env, {x}, n, caller);
      var r := AssignVariable(q, links, c, env, x, k0, o.value, base, IsExposed(e1), |p.s.words|);
      RunsOn(p, steps, q, 1, r, own);
      if IsDrop(k) {
        steps, q := steps + 1, r;
      } else {
        RunsEvolves(q, 1, r, {});
        StackStays(q, r, {}, links, c, base, env, {x}, n, caller);
        var m;
        m, q := ConstantRuns(False, k, r, links, n, caller);
        DeliversAfter(p, steps + 1, r, m, q, Done(Plain(False), r.st), k, base, caller, false, own, {});
        steps := steps + 1 + m;
      }
    }
  }

  lemma {:induction false} AssignParts(c: Context, e: Expr)
    requires e.Assign? && Compilable(e) && Analyzed(NamesOf(c), e)
    ensures Compilable(e.expr) && Analyzed(NamesOf(c), e.expr) && Free(e.expr) <= Free(e) && e.name in Free(e)
    ensures e.name != OPERATOR
  {
  }

  lemma {:induction false} ReadyFewer(p: Point, links: Links, c: Context, env: Env, free: set<Name>, code: Code,
                                      n: nat, caller: Caller, fewer: set<Name>)
    requires Ready(p, links, c, env, free, code, n, caller) && fewer <= free
    ensures Ready(p, links, c, env, fewer, code, n, caller)
  {
    EnvFewer(View(p.w, links), c, p.s.stack.index, env, free, fewer);
  }

  lemma {:induction false} IfParts(c: Context, e: Expr)
    requires e.If? && Compilable(e) && Analyzed(NamesOf(c), e)
    ensures Compilable(e.test) && Analyzed(NamesOf(c), e.test) && Free(e.test) <= Free(e) && !IsExposed(e.test)
    ensures Compilable(e.then_) && Analyzed(NamesOf(c), e.then_) && Free(e.then_) <= Free(e)
    ensures Compilable(e.else_) && Analyzed(NamesOf(c), e.else_) && Free(e.else_) <= Free(e)
  {
  }

  lemma {:induction false} IfRuns(depth: nat, e: Expr, env: Env, c: Context, k: Code, p: Point, links: Links, n: nat,
                                  caller: Caller)
    returns (steps: nat, q: Point)
    requires e.If? && Compilable(e) && Analyzed(NamesOf(c), e) && IsContinuation(k)
    requires Ready(p, links, c, env, Free(e), Compile(c, e, k), n, caller)
    ensures Delivers(p, steps, q, Eval(depth, e, env, p.st), k, p.s.stack.index, caller, IsExposed(e),
                     Own(MakesClosure(e), links))
    decreases depth, 1, e, 1
  {
    hide IsData, Holds, HasCode, HasFrame, HasEnv, Reaches, Evolves, Ready, Compilable, Analyzed, Free, Fails, Delivers,
         Runs, IsTop, Compile, Own, MakesClosure, IsExposed, NamesOf, Eval, Continues, IsContinuation;
    IfIs(depth, e, env, c, k, p.st);
    IfParts(c, e);
    IfOwns(e, links);
    var k1, base, own := if k.Return? then k else Nop(k), p.s.stack.index, Own(MakesClosure(e), links);
    var a, b := Compile(c, e.then_, k1), Compile(c, e.else_, k1);
    ExpressionContinues(c, e.then_, k1);
    ExpressionContinues(c, e.else_, k1);
    BranchContinues(a, b, k);
    ReadyFewer(p, links, c, env, Free(e), Compile(c, e, k), n, caller, Free(e.test));
    steps, q := CompileRuns(depth, e.test, env, c, Branch(a, b), p, links, n, caller);
    var o := Eval(depth, e.test, env, p.st);
    match o
    case Done(d, st) =>
      Delivered(p, steps, q, o, Branch(a, b), base, caller, false, Own(MakesClosure(e.test), links));
      RunsWider(p, steps, q, Own(MakesClosure(e.test), links), own);
      var r := TakeBranch(p, steps, q, a, b, o.value, base, own);
      var branch := if Truth(o.value) then e.then_ else e.else_;
      RunsEvolves(p, steps + 1, r, own);
      ReadyLater(p, r, own, links, c, env, Free(e), Compile(c, e, k), n, caller, Free(branch),
                 Compile(c, branch, k1));
      var m;
      m, q := CompileRuns(depth, branch, env, c, k1, r, links, n, caller);
      var o', own' := Eval(depth, branch, env, r.st), Own(MakesClosure(branch), links);
      m, q := LeaveNop(r, m, q, o', k, base, caller, IsExposed(branch), own');
      DeliversAfter(p, steps + 1, r, m, q, o', k, base, caller, IsExposed(branch), own, own');
      Weaken(p, steps + 1 + m, q, o', k, base, caller, IsExposed(branch), IsExposed(e), own, own);
      steps := steps + 1 + m;
    case Wrong(error) =>
      DeliversWrong(p, steps, q, error, Branch(a, b), base, caller, false, Own(MakesClosure(e.test), links), k, base,
                    IsExposed(e), own);
    case Undefined => UndefinedDelivers(p, steps, q, k, base, caller, IsExposed(e), own);
  }

  lemma {:induction false} BranchContinues(a: Code, b: Code, k: Code)
    requires Continues(a) && Continues(b) && IsContinuation(k)
    ensures IsContinuation(Branch(a, b)) && IsContinuation(if k.Return? then k else Nop(k))
  {
  }

  // An `if` form in terms of its parts.
  lemma {:induction false} IfIs(depth: nat, e: Expr, env: Env, c: Context, k: Code, st: Locations)
    requires e.If?
    ensures var k1 := if k.Return? then k else Nop(k);
            Compile(c, e, k) == Compile(c, e.test, Branch(Compile(c, e.then_, k1), Compile(c, e.else_, k1)))
    ensures Eval(depth, e, env, st)
            == match Eval(depth, e.test, env, st)
               case Done(d, st1) => Eval(depth, if Truth(d) then e.then_ else e.else_, env, st1)
               case Wrong(error) => Wrong(error)
               case Undefined => Undefined
  {
  }

  lemma {:induction false} IfOwns(e: Expr, links: Links)
    requires e.If?
    ensures Own(MakesClosure(e.test), links) <= Own(MakesClosure(e), links)
    ensures Own(MakesClosure(e.then_), links) <= Own(MakesClosure(e), links)
    ensures Own(MakesClosure(e.else_), links) <= Own(MakesClosure(e), links)
    ensures IsExposed(e.then_) || IsExposed(e.else_) ==> IsExposed(e)
  {
  }

  lemma {:induction false} Weaken(p: Point, steps: nat, q: Point, o: Outcome<Data>, k: Code, base: nat,
                                  caller: Caller, exposed: bool, more: bool, own: set<nat>, own': set<nat>)
    requires Delivers(p, steps, q, o, k, base, caller, exposed, own) && (exposed ==> more) && own <= own'
    ensures Delivers(p, steps, q, o, k, base, caller, more, own')
  {
  }

  /** A nop is no instruction. */
  lemma {:induction false} LeaveNop(p: Point, m: nat, q: Point, o: Outcome<Data>, k: Code, base: nat,
                                    caller: Caller, exposed: bool, own: set<nat>)
    returns (steps: nat, r: Point)
    requires Delivers(p, m, q, o, if k.Return? then k else Nop(k), base, caller, exposed, own) && IsContinuation(k)
    ensures Delivers(p, steps, r, o, k, base, caller, exposed, own)
  {
    hide IsData, Holds, Reaches, Evolves, Fails;
    steps, r := m, q;
    if o.Done? && !k.Return? {
      var n;
      n, r := Land(q, k, base, caller, o.value, exposed, |p.s.words|);
      RunsOn(p, m, q, n, r, own);
      steps := m + n;
    }
  }

  // ----- sequences -----

  lemma {:induction false} SequenceRuns(depth: nat, es: Sequence, env: Env, c: Context, k: Code, p: Point,
                                        links: Links, n: nat, caller: Caller)
    returns (steps: nat, q: Point)
    requires SequenceCompilable(es) && SequenceAnalyzed(NamesOf(c), es) && IsContinuation(k)
    requires Ready(p, links, c, env, FreeInSequence(es), CompileSequence(c, es, k), n, caller)
    ensures Delivers(p, steps, q, EvalSequence(depth, es, env, p.st), k, p.s.stack.index, caller, IsLastExposed(es),
                     Own(SequenceMakesClosure(es), links))
    decreases depth, 1, es, 0
  {
    hide IsData, Holds, HasCode, HasFrame, HasEnv, Reaches, Evolves, Ready, Compile, Fails;
    match es
    case Last(e) => steps, q := CompileRuns(depth, e, env, c, k, p, links, n, caller);
    case Then(e, rest) =>
      var code, free, own := CompileSequence(c, rest, k), FreeInSequence(es), Own(SequenceMakesClosure(es), links);
      SequenceContinues(c, rest, k);
      ReadyFewer(p, links, c, env, free, CompileSequence(c, es, k), n, caller, Free(e));
      steps, q := CompileRuns(depth, e, env, c, CompileDrop(code), p, links, n, caller);
      var o := Eval(depth, e, env, p.st);
      if o.Done? {
        var r := q;
        RunsWider(p, steps, r, Own(MakesClosure(e), links), own);
        ReadyLater(p, r, own, links, c, env, free, CompileSequence(c, es, k), n, caller, FreeInSequence(rest), code);
        var m;
        m, q := SequenceRuns(depth, rest, env, c, k, r, links, n, caller);
        DeliversAfter(p, steps, r, m, q, EvalSequence(depth, rest, env, r.st), k, p.s.stack.index, caller,
                      IsLastExposed(rest), own, Own(SequenceMakesClosure(rest), links));
        steps := steps + m;
      }
  }

  // ----- let forms -----

  /** The value of an argument has become a variable of the body, and a nameless slot for the arguments. */
  ghost predicate Bound(q: Point, r: Point, d: Data, base: nat) {
    && r.s == q.s && r.st == q.st + [d] && Grows(q.w, r.w)
    && IsCovered(r, base)
  }

  lemma {:induction false} BindTop(p: Point, m: nat, q: Point, d: Data, base: nat, exposed: bool, own: set<nat>)
    returns (r: Point)
    requires Runs(p, m, q, own) && Holds(q) && IsTop(q, d, base, exposed, |p.s.words|)
    ensures Runs(p, m, r, own) && Holds(r) && Bound(q, r, d, base)
    ensures |r.w.vars| == |r.st| == |q.st| + 1 && r.w.vars[|q.st|] == r.s.stack.index
    ensures |p.s.words| <= r.s.stack.index < |r.s.words| && Evolves(p, r, own)
  {
    hide IsData, HasPrimitive, Reaches;
    Covering(q, d, base, exposed, |p.s.words|);
    CoveringEvolves(p, q, d, base, exposed, own);
    var q1 := Covered(q);
    VarAdded(q1, q.s.stack.index, d);
    AddedEvolves(p, q1, q.s.stack.index, d, own);
    r := AddVar(q1, q.s.stack.index, d);
  }

  // The top is above `base`, and that no longer changes.
  predicate IsCovered(p: Point, base: nat) {
    var t := p.s.stack.index;
    HasNext(p.w, t) && p.w.fixed[t + 1] == Pointer(Cons(base, PAIR)) && base < t
  }

  // A link that no longer changes, or a link of the activation.
  predicate IsLinked(p: Point, links: Links, base: nat) {
    var t := p.s.stack.index;
    HasNext(View(p.w, links), t) && View(p.w, links).fixed[t + 1] == Pointer(Cons(base, PAIR)) && base < t
  }

  lemma {:induction false} MoreLinks(p: Point, links: Links, links': Links)
    requires Holds(p) && LinksIn(links', p.s.words)
    requires forall j :: j in links ==> j in links' && links'[j] == links[j]
    ensures Grows(View(p.w, links), View(p.w, links'))
    ensures forall j :: j in links' && j in p.w.fixed ==> links'[j] == p.w.fixed[j]
  {
    hide IsData, HasPrimitive, HoldsVar;
  }

  /** Above the stack of the activation there is one more value. */
  lemma {:induction false} ReadyAbove(p: Point, r: Point, own: set<nat>, links: Links, links': Links, c: Context,
                                      slot: Slot, env: Env, free: set<Name>, k: Code, n: nat, caller: Caller,
                                      fewer: set<Name>, code: Code, base: nat)
    requires Ready(p, links, c, env, free, k, n, caller) && fewer <= free && p.s.stack.index == base
    requires Evolves(p, r, own) && Holds(r) && HasCode(r.w, r.s.code.index, code)
    requires LinksIn(links', r.s.words) && forall j :: j in links ==> j in links' && links'[j] == links[j]
    requires IsLinked(r, links', base) && n + 1 < |r.s.words| && (slot.Local? ==> slot.name !in fewer)
    ensures Ready(r, links', [slot] + c, env, fewer, code, n + 1, caller)
  {
    hide HasCode, HasEnv, HasFrame, Holds, LinksIn, Evolves;
    StackStays(p, r, own, links, c, base, env, free, n, caller);
    LinksAgree(r, links');
    MoreLinks(r, links, links');
    EnvGrows(View(r.w, links), View(r.w, links'), c, base, env, free);
    EnvFewer(View(r.w, links'), c, base, env, free, fewer);
    EnvUnder(View(r.w, links'), c, slot, r.s.stack.index, base, env, fewer);
    FrameLinked(r.w, base, n, caller, links, links');
    FrameBelow(r.w, r.s.stack.index, base, n, caller, links');
  }

  lemma {:induction false} MoreWords(p: Point, q: Point, d: Data, base: nat, exposed: bool, n: nat)
    requires IsTop(q, d, base, exposed, |p.s.words|) && n < |p.s.words|
    ensures n + 1 < |q.s.words| && base < q.s.stack.index
  {
  }

  lemma {:induction false} LetParts(c: Context, ic: Context, bs: Bindings)
    requires bs.Bind? && BindingsCompilable(bs) && BindingsAnalyzed(NamesOf(c), NamesOf(ic), bs)
    ensures bs.name != OPERATOR && Compilable(bs.init) && Analyzed(NamesOf(c), bs.init)
    ensures BindingsCompilable(bs.rest)
    ensures BindingsAnalyzed(NamesOf([Hidden] + c), NamesOf([Local(bs.name)] + ic), bs.rest)
    ensures Free(bs.init) <= FreeInInits(bs) && FreeInInits(bs.rest) <= FreeInInits(bs)
  {
    NamesBelow(c, Hidden);
    NamesBelow(ic, Local(bs.name));
  }

  /** At the end of a `let` form its variable is dropped from below the value. */
  lemma {:induction false} LeaveLet(p: Point, m: nat, q: Point, o: Outcome<Data>, k: Code, base: nat, n: nat,
                                    caller: Caller, exposed: bool, links: Links, own: set<nat>)
    returns (steps: nat, r: Point)
    requires Delivers(p, m, q, o, CompileUnbind(k), p.s.stack.index, caller, exposed, own) && IsContinuation(k)
    requires IsCovered(p, base) && Holds(p) && LinksIn(links, p.s.words)
    requires HasFrame(p.w, base, n, caller, links) && n < |p.s.words|
    ensures Delivers(p, steps, r, o, k, base, caller, false, own)
  {
    hide IsData, Holds, Reaches, Evolves, HasFrame, HasCode, Delivers, Runs, IsTop, Pushes, LinksIn;
    steps, r := m, q;
    var t := p.s.stack.index;
    match o
    case Done(d, _) =>
      if k.Return? {
        ReturnsAnyhow(p, m, q, o, t, caller, exposed, base, false, own);
      } else {
        var k1 := CompileUnbind(k);
        Delivered(p, m, q, o, k1, t, caller, exposed, own);
        RunsEvolves(p, m, q, own);
        EvolvesWords(p, q, own);
        LinksStay(p, q, links, own);
        FrameGrows(p.w, q.w, base, n, caller, links);
        var q1 := UnbindTop(q, k, d, t, base, |p.s.words|);
        PushesIs(q, q1, k, d, base);
        var m1;
        m1, r := Settle(q, q1, k, base, n, caller, d, false, |q.s.words|, links);
        Settled(q, m1, r, o, k, base, caller);
        DeliversAfter(p, m, q, m1, r, o, k, base, caller, false, own, {});
        steps := m + m1;
      }
    case Wrong(e) => DeliversWrong(p, m, q, e, CompileUnbind(k), t, caller, exposed, own, k, base, false, own);
    case Undefined => UndefinedDelivers(p, m, q, k, base, caller, false, own);
  }

  lemma {:induction false} ReturnsAnyhow(p: Point, m: nat, q: Point, o: Outcome<Data>, base: nat, caller: Caller,
                                         exposed: bool, base': nat, exposed': bool, own: set<nat>)
    requires Delivers(p, m, q, o, Return, base, caller, exposed, own)
    ensures Delivers(p, m, q, o, Return, base', caller, exposed', own)
  {
  }

  lemma {:induction false} PushesIs(p: Point, q: Point, k: Code, d: Data, base: nat)
    requires Pushes(p, q, k, d, base, false, |p.s.words|)
    ensures |p.s.words| <= q.s.stack.index
  {
  }

  lemma {:induction false} Settled(p: Point, m: nat, q: Point, o: Outcome<Data>, k: Code, base: nat, caller: Caller)
    requires o.Done? && Runs(p, m, q, {}, Turn(k)) && q.st == o.store
    requires Arrived(q, k, base, caller, o.value, false, |p.s.words|)
    ensures Delivers(p, m, q, o, k, base, caller, false, {})
  {
  }

  lemma {:induction false} LetRuns(depth: nat, bs: Bindings, env: Env, inner: Env, c: Context, ic: Context, k: Code,
                                   p: Point, links: Links, n: nat, caller: Caller)
    returns (steps: nat, q: Point)
    requires BindingsCompilable(bs) && BindingsAnalyzed(NamesOf(c), NamesOf(ic), bs) && IsContinuation(k)
    requires Ready(p, links, c, env, FreeInInits(bs), CompileLet(c, ic, bs, k), n, caller)
    requires HasEnv(View(p.w, links), ic, p.s.stack.index, inner, FreeInBody(bs))
    ensures Delivers(p, steps, q, EvalBindings(depth, bs, env, inner, p.st), k, p.s.stack.index, caller,
                     bs.Body? && IsExposed(bs.expr), Own(BindingsMakeClosure(bs), links))
    decreases depth, 1, bs, 1
  {
    hide HasCode, HasFrame, HasEnv, Ready, Delivers, Compile, Compilable, Analyzed, IsContinuation, Holds, LinksIn;
    if bs.Body? {
      ReadyIs(p, links, c, env, FreeInInits(bs), CompileLet(c, ic, bs, k), n, caller);
      MakeReady(p, links, ic, inner, Free(bs.expr), Compile(ic, bs.expr, k), n, caller);
      steps, q := CompileRuns(depth, bs.expr, inner, ic, k, p, links, n, caller);
    } else {
      steps, q := BindRuns(depth, bs, env, inner, c, ic, k, p, links, n, caller);
    }
  }

  lemma {:induction false} BindRuns(depth: nat, bs: Bindings, env: Env, inner: Env, c: Context, ic: Context, k: Code,
                                    p: Point, links: Links, n: nat, caller: Caller)
    returns (steps: nat, q: Point)
    requires BindingsCompilable(bs) && BindingsAnalyzed(NamesOf(c), NamesOf(ic), bs) && IsContinuation(k)
    requires Ready(p, links, c, env, FreeInInits(bs), CompileLet(c, ic, bs, k), n, caller) && bs.Bind?
    requires HasEnv(View(p.w, links), ic, p.s.stack.index, inner, FreeInBody(bs))
    ensures Delivers(p, steps, q, EvalBindings(depth, bs, env, inner, p.st), k, p.s.stack.index, caller, false,
                     Own(BindingsMakeClosure(bs), links))
    decreases depth, 1, bs, 0
  {
    hide IsData, Holds, HasCode, HasFrame, HasEnv, Reaches, Evolves, Compile, Analyzed, Compilable, Ready,
         Delivers, Runs, IsTop, MakesClosure, LinksIn, IsCovered, NamesOf, Free, BindingsCompilable, BindingsAnalyzed,
         Own, BindingsMakeClosure, EvalBindings, Eval, IsExposed, IsContinuation, Continues, IsDrop;
    var base, code, x, rest := p.s.stack.index, CompileLet(c, ic, bs, k), bs.name, bs.rest;
    var c1, ic1, k1 := [Hidden] + c, [Local(x)] + ic, CompileUnbind(k);
    var k2, own := CompileLet(c1, ic1, rest, k1), Own(BindingsMakeClosure(bs), links);
    var own1, own2 := Own(MakesClosure(bs.init), links), Own(BindingsMakeClosure(rest), links);
    BindIs(depth, bs, env, inner, p.st);
    ReadyIs(p, links, c, env, FreeInInits(bs), code, n, caller);
    LetParts(c, ic, bs);
    OwnParts(bs, links);
    BindContinues(c1, ic1, rest, k);
    ReadyFewer(p, links, c, env, FreeInInits(bs), code, n, caller, Free(bs.init));
    steps, q := CompileRuns(depth, bs.init, env, c, k2, p, links, n, caller);
    var o := Eval(depth, bs.init, env, p.st);
    match o
    case Done(d, st) =>
      Delivered(p, steps, q, o, k2, base, caller, IsExposed(bs.init), own1);
      RunsWider(p, steps, q, own1, own);
      var inner1 := inner[x := |st|];
      var r := BindNext(p, steps, q, d, env, inner, links, c, ic, FreeInInits(bs), x, FreeInBody(rest), code, k2, base,
                        n, caller, IsExposed(bs.init), own, FreeInInits(rest));
      var m, t := LetRuns(depth, rest, env, inner1, c1, ic1, k1, r, links, n + 1, caller);
      var o' := EvalBindings(depth, rest, env, inner1, r.st);
      m, t := LeaveLet(r, m, t, o', k, base, n, caller, rest.Body? && IsExposed(rest.expr), links,
                       own2);
      DeliversAfter(p, steps, r, m, t, o', k, base, caller, false, own, own2);
      steps, q := steps + m, t;
    case Wrong(e) => DeliversWrong(p, steps, q, e, k2, base, caller, IsExposed(bs.init), own1, k, base, false, own);
    case Undefined => UndefinedDelivers(p, steps, q, k, base, caller, false, own);
  }

  lemma {:induction false} BindContinues(c: Context, ic: Context, bs: Bindings, k: Code)
    requires IsContinuation(k)
    ensures IsContinuation(CompileUnbind(k))
    ensures var k' := CompileLet(c, ic, bs, CompileUnbind(k)); IsContinuation(k') && !k'.Return? && !IsDrop(k')
  {
    LetContinues(c, ic, bs, CompileUnbind(k));
  }

  lemma {:induction false} OwnParts(bs: Bindings, links: Links)
    requires bs.Bind?
    ensures Own(MakesClosure(bs.init), links) <= Own(BindingsMakeClosure(bs), links)
    ensures Own(BindingsMakeClosure(bs.rest), links) <= Own(BindingsMakeClosure(bs), links)
  {
  }

  /** The value of an argument is bound, and the machine is ready for the rest of the form. */
  lemma {:induction false} BindNext(p: Point, steps: nat, q: Point, d: Data, env: Env, inner: Env, links: Links,
                                    c: Context, ic: Context, free: set<Name>, x: Name, names: set<Name>, code: Code,
                                    k: Code, base: nat, n: nat, caller: Caller, exposed: bool, own: set<nat>,
                                    fewer: set<Name>)
    returns (r: Point)
    requires Ready(p, links, c, env, free, code, n, caller) && p.s.stack.index == base && fewer <= free
    requires HasEnv(View(p.w, links), ic, base, inner, names - {x})
    requires Runs(p, steps, q, own) && Holds(q) && IsTop(q, d, base, exposed, |p.s.words|)
    requires HasCode(q.w, q.s.code.index, k)
    ensures Runs(p, steps, r, own) && r.st == q.st + [d] && r.s == q.s && Holds(r) && LinksIn(links, r.s.words)
    ensures Ready(r, links, [Hidden] + c, env, fewer, k, n + 1, caller)
    ensures HasEnv(View(r.w, links), [Local(x)] + ic, r.s.stack.index, inner[x := |q.st|], names)
    ensures IsCovered(r, base) && HasFrame(r.w, base, n, caller, links) && n < |r.s.words|
  {
    hide IsData, Holds, HasCode, HasFrame, HasEnv, Reaches, Evolves, Ready, IsTop, LinksIn;
    ReadyIs(p, links, c, env, free, code, n, caller);
    r := BindTop(p, steps, q, d, base, exposed, own);
    CodeGrows(q.w, r.w, q.s.code.index, k);
    BindReady(p, r, own, env, links, c, free, code, k, base, n, caller, fewer);
    StackStays(p, r, own, links, ic, base, inner, names - {x}, n, caller);
    LinksAgree(r, links);
    EnvBinds(View(r.w, links), ic, r.s.stack.index, base, inner, names, x, |q.st|);
  }

  lemma {:induction false} BindReady(p: Point, r: Point, own: set<nat>, env: Env, links: Links, c: Context,
                                     free: set<Name>, code: Code, k: Code, base: nat, n: nat, caller: Caller,
                                     fewer: set<Name>)
    requires Ready(p, links, c, env, free, code, n, caller) && p.s.stack.index == base && fewer <= free
    requires Evolves(p, r, own) && Holds(r) && HasCode(r.w, r.s.code.index, k) && IsCovered(r, base)
    requires |p.s.words| <= r.s.stack.index < |r.s.words|
    ensures Ready(r, links, [Hidden] + c, env, fewer, k, n + 1, caller) && IsLinked(r, links, base)
  {
    hide IsData, Holds, HasCode, HasFrame, HasEnv, Evolves, LinksIn;
    ReadyIs(p, links, c, env, free, code, n, caller);
    LinksStay(p, r, links, own);
    LinksAgree(r, links);
    ReadyAbove(p, r, own, links, links, c, Hidden, env, free, code, n, caller, fewer, k, base);
  }

  lemma {:induction false} BindIs(depth: nat, bs: Bindings, env: Env, inner: Env, st: Locations)
    requires bs.Bind?
    ensures EvalBindings(depth, bs, env, inner, st)
            == match Eval(depth, bs.init, env, st)
               case Done(d, st1) => EvalBindings(depth, bs.rest, env, inner[bs.name := |st1|], st1 + [d])
               case Wrong(error) => Wrong(error)
               case Undefined => Undefined
  {
  }

  lemma {:induction false} MakeReady(p: Point, links: Links, c: Context, env: Env, free: set<Name>, code: Code,
                                     n: nat, caller: Caller)
    requires Holds(p) && LinksIn(links, p.s.words) && HasCode(p.w, p.s.code.index, code)
    requires HasEnv(View(p.w, links), c, p.s.stack.index, env, free)
    requires HasFrame(p.w, p.s.stack.index, n, caller, links) && n < |p.s.words|
    ensures Ready(p, links, c, env, free, code, n, caller)
  {
  }

  // ----- arguments -----

  function Below(c: Context, n: nat): Context
    decreases n
  {
    if n == 0 then c else Below([Hidden] + c, n - 1)
  }

  /** The arguments are on the stack at the call instruction, and its operator is where it was. */
  ghost predicate Collected(p: Point, steps: nat, q: Point, o: Outcome<seq<Data>>, es: Arguments, links: Links,
                            c: Context, f: Name, arity: nat, k: Code, base: nat, own: set<nat>) {
    match o
    case Done(values, st) =>
      && Runs(p, steps, q, own) && q.st == st && Holds(q) && |values| == Count(es)
      && HasCode(q.w, q.s.code.index, Code.Call(arity, Resolve(Below(c, Count(es)), f), k))
      && Temps(q, q.s.stack.index, values, base)
      && VariableCell(View(q.w, links), Below(c, Count(es)), q.s.stack.index, f)
         == VariableCell(View(q.w, links), c, base, f)
    case Wrong(e) => Fails(p.s, steps, e)
    case Undefined => true
  }

  /** The same point with its top cell part of the stack. */
  ghost predicate Covers(q: Point, r: Point, d: Data, base: nat) {
    && Holds(r) && Grows(q.w, r.w) && r == q.(w := r.w) && IsCovered(r, base)
    && Temps(r, r.s.stack.index, [d], base)
  }

  lemma {:induction false} CoverTop(p: Point, m: nat, q: Point, d: Data, base: nat, exposed: bool, own: set<nat>)
    returns (r: Point)
    requires Runs(p, m, q, own) && Holds(q) && IsTop(q, d, base, exposed, |p.s.words|)
    ensures Runs(p, m, r, own) && Covers(q, r, d, base) && |p.s.words| <= r.s.stack.index < |r.s.words|
  {
    hide IsData, HasPrimitive, Reaches;
    Covering(q, d, base, exposed, |p.s.words|);
    CoveringEvolves(p, q, d, base, exposed, own);
    r := Covered(q);
    assert [d][..0] == [];
    assert Temps(r, base, [d][..0], base);
    assert Temps(r, r.s.stack.index, [d], base);
  }

  lemma {:induction false} ArgumentsRun(depth: nat, es: Arguments, env: Env, c: Context, f: Name, arity: nat, k: Code,
                                        p: Point, links: Links, n: nat, caller: Caller)
    returns (steps: nat, q: Point)
    requires ArgumentsCompilable(es) && ArgumentsAnalyzed(NamesOf(c), es) && IsContinuation(k)
    requires Ready(p, links, c, env, FreeInArguments(es), CompileArguments(c, f, es, arity, k), n, caller)
    ensures Collected(p, steps, q, EvalArguments(depth, es, env, p.st), es, links, c, f, arity, k, p.s.stack.index,
                      Own(ArgumentsMakeClosure(es), links))
    decreases depth, 1, es, 0
  {
    hide IsData, Holds, HasCode, HasFrame, HasEnv, Reaches, Evolves, Compile, Analyzed, Compilable, Ready,
         VariableCell, Temps, Resolve, MakesClosure, Fails, LinksIn, IsTop, Delivers, Runs, Collected, IsLinked;
    var base, code := p.s.stack.index, CompileArguments(c, f, es, arity, k);
    ReadyIs(p, links, c, env, FreeInArguments(es), code, n, caller);
    match es
    case NoMore =>
      steps, q := 0, p;
      NoArguments(p, es, links, c, f, arity, k, base);
    case Argument(e, rest) =>
      var c1 := [Hidden] + c;
      var k1, own := CompileArguments(c1, f, rest, arity, k), Own(ArgumentsMakeClosure(es), links);
      ArgumentsContinue(c1, f, rest, arity, k);
      ReadyFewer(p, links, c, env, FreeInArguments(es), code, n, caller, Free(e));
      steps, q := CompileRuns(depth, e, env, c, k1, p, links, n, caller);
      var o := Eval(depth, e, env, p.st);
      ArgumentsAre(depth, e, rest, env, p.st);
      hide EvalArguments;
      if o.Done? {
        Delivered(p, steps, q, o, k1, base, caller, IsExposed(e), Own(MakesClosure(e), links));
        RunsWider(p, steps, q, Own(MakesClosure(e), links), own);
        var r := NextArgument(p, steps, q, o.value, env, links, c, FreeInArguments(es), code, k1, base, n, caller,
                              IsExposed(e), own, FreeInArguments(rest));
        NamesBelow(c, Hidden);
        var m;
        m, q := ArgumentsRun(depth, rest, env, c1, f, arity, k, r, links, n + 1, caller);
        CollectedMore(p, steps, r, m, q, o.value, EvalArguments(depth, rest, env, r.st), es, links, c, f, arity, k,
                      base, r.s.stack.index, own, Own(ArgumentsMakeClosure(rest), links));
        steps := steps + m;
      } else {
        NotCollected(p, steps, q, o, k1, base, caller, IsExposed(e), Own(MakesClosure(e), links), es, links, c, f,
                     arity, k, own);
      }
  }

  lemma {:induction false} NoArguments(p: Point, es: Arguments, links: Links, c: Context, f: Name, arity: nat, k: Code,
                                       base: nat)
    requires Holds(p) && HasCode(p.w, p.s.code.index, Code.Call(arity, Resolve(c, f), k)) && p.s.stack.index == base
    requires es.NoMore?
    ensures Collected(p, 0, p, Done([], p.st), es, links, c, f, arity, k, base, Own(ArgumentsMakeClosure(es), links))
  {
    hide IsData, Holds, HasCode, Reaches, VariableCell, Resolve;
    RunsNowhere(p);
    NoTempsYet(p, base);
  }

  lemma {:induction false} NotCollected(p: Point, steps: nat, q: Point, o: Outcome<Data>, k: Code, base: nat,
                                        caller: Caller, exposed: bool, own: set<nat>, es: Arguments, links: Links,
                                        c: Context, f: Name, arity: nat, k': Code, own': set<nat>)
    requires Delivers(p, steps, q, o, k, base, caller, exposed, own) && !o.Done?
    ensures Collected(p, steps, q, if o.Wrong? then Wrong(o.error) else Undefined, es, links, c, f, arity, k', base,
                      own')
  {
  }

  /** The value of an argument is on the stack, and the machine is ready for the next one. */
  lemma {:induction false} NextArgument(p: Point, m: nat, q: Point, d: Data, env: Env, links: Links, c: Context,
                                        free: set<Name>, code: Code, k: Code, base: nat, n: nat, caller: Caller,
                                        exposed: bool, own: set<nat>, fewer: set<Name>)
    returns (r: Point)
    requires Ready(p, links, c, env, free, code, n, caller) && p.s.stack.index == base && fewer <= free
    requires Runs(p, m, q, own) && Holds(q) && IsTop(q, d, base, exposed, |p.s.words|)
    requires HasCode(q.w, q.s.code.index, k)
    ensures Runs(p, m, r, own) && Covers(q, r, d, base)
    ensures Ready(r, links, [Hidden] + c, env, fewer, k, n + 1, caller) && IsLinked(r, links, base)
  {
    hide IsData, Holds, HasCode, HasFrame, HasEnv, Reaches, Evolves, Ready, IsTop, LinksIn, Temps;
    ReadyIs(p, links, c, env, free, code, n, caller);
    r := CoverTop(p, m, q, d, base, exposed, own);
    CodeGrows(q.w, r.w, q.s.code.index, k);
    RunsEvolves(p, m, r, own);
    BindReady(p, r, own, env, links, c, free, code, k, base, n, caller, fewer);
  }

  lemma {:induction false} ArgumentsAre(depth: nat, e: Expr, rest: Arguments, env: Env, st: Locations)
    ensures EvalArguments(depth, Argument(e, rest), env, st)
            == match Eval(depth, e, env, st)
               case Done(d, st1) =>
                 var o := EvalArguments(depth, rest, env, st1);
                 if o.Done? then Done([d] + o.value, o.store) else o
               case Wrong(error) => Wrong(error)
               case Undefined => Undefined
  {
  }

  lemma {:induction false} NoTempsYet(p: Point, base: nat)
    ensures Temps(p, base, [], base)
  {
  }

  lemma {:induction false} CollectedMore(p: Point, m: nat, r: Point, n: nat, q: Point, d: Data, o: Outcome<seq<Data>>,
                                         es: Arguments, links: Links, c: Context, f: Name, arity: nat, k: Code,
                                         base: nat, t: nat, own: set<nat>, own': set<nat>)
    requires Runs(p, m, r, own) && es.Argument? && r.s.stack.index == t && own' <= own
    requires Collected(r, n, q, o, es.rest, links, [Hidden] + c, f, arity, k, t, own')
    requires Temps(r, t, [d], base) && IsLinked(r, links, base)
    ensures Collected(p, m + n, q, if o.Done? then Done([d] + o.value, o.store) else o, es, links, c, f, arity, k, base,
                      own)
  {
    hide IsData, Holds, HasCode, Reaches, Temps, VariableCell, Resolve, Fails;
    if o.Done? {
      RunsOn(p, m, r, n, q, own, own');
      EvolvesWords(r, q, own');
      ViewGrows(r.w, q.w, links);
      TempsEvolve(r, q, t, [d], base, own');
      TempsBelow(q, q.s.stack.index, o.value, t, d, base);
      CellBelow(View(q.w, links), c, Hidden, t, base, f);
    } else if o.Wrong? {
      FailsOn(p.s, m, r.s, n, o.error, 0);
    }
  }

  // ----- calls -----

  /** What the call of a value with some arguments means. */
  function Applied(depth: nat, d: Data, values: seq<Data>, variadic: bool, st: Locations): Outcome<Data> {
    var (a, st1) :- ApplyTo(d, values, variadic, st);
    match a
    case Returned(v) => Done(v, st1)
    case Entered(body, env) => if depth == 0 then Undefined else EvalSequence(depth - 1, body, env, st1)
  }

  lemma {:induction false} AppliedClosure(depth: nat, f: Procedure, env: Env, values: seq<Data>, variadic: bool,
                                          st: Locations)
    requires Applied(depth, Closure(f, env), values, variadic, st) != Undefined
    ensures Spread(values, variadic).Done?
    ensures var all := Spread(values, variadic).value;
            if Fits(|all|, ArityOf(f))
            then depth > 0 && Applied(depth, Closure(f, env), values, variadic, st)
                 == EvalSequence(depth - 1, f.body, BindNames(env, f.names, |st|),
                                 st + ParameterValues(ArityOf(f), all))
            else Applied(depth, Closure(f, env), values, variadic, st) == Wrong(ArgumentCount)
  {
  }

  lemma {:induction false} ClosureParts(c: Context, f: Procedure)
    requires Compilable(Lambda(f)) && Analyzed(NamesOf(c), Lambda(f))
    ensures SequenceCompilable(f.body) && SequenceAnalyzed(NamesOf(FrameContext(f.names) + c), f.body)
  {
    NamesOfFrame(c, f.names);
  }

  lemma {:induction false} ScopeIsReady(p: Point, f: Procedure, c: Context, env: Env, l: nat, caller: Caller)
    requires Scope(p, f.names, |f.names|, c, env, l, FreeInSequence(f.body), caller)
    requires HasCode(p.w, p.s.code.index, CompileProcedure(c, f).body)
    ensures Ready(p, map[], FrameContext(f.names) + c, BindNames(env, f.names, l), FreeInSequence(f.body),
                  CompileSequence(FrameContext(f.names) + c, f.body, Return), |f.names|, caller)
  {
    NoLinks(p.w);
    assert f.names[..|f.names|] == f.names;
    assert Named(f.names[|f.names|..]) == {};
    EnvFewer(p.w, FrameContext(f.names) + c, p.s.stack.index, BindNames(env, f.names, l),
             FreeInSequence(f.body) - Named(f.names[|f.names|..]), FreeInSequence(f.body));
  }

  /** A procedure that one step has entered has returned to the instruction that called it. */
  lemma {:induction false} ReturnToCaller(p: Point, r: Point, m: nat, q: Point, o: Outcome<Data>, k: Code, base: nat,
                                          caller: Caller, inner: Caller, low: nat)
    returns (steps: nat, t: Point)
    requires Runs(p, 1, r, {}, if k.Return? then 0 else 1)
    requires Delivers(r, m, q, o, Return, low, inner, false, {}) && IsContinuation(k)
    requires if k.Return? then inner == caller else inner.stack == base && HasCode(r.w, inner.code, k)
    ensures Delivers(p, steps, t, o, k, base, caller, false, {})
  {
    hide IsData, Holds, Reaches, Evolves, HasCode, Fails;
    steps, t := 1 + m, q;
    var start: nat := if k.Return? then 0 else 1;
    if o.Done? {
      RunsOn(p, 1, r, m, q, {}, {}, -1, start);
      RunsEvolves(p, 1, r, {}, start);
      EvolvesWords(p, r);
      if !k.Return? {
        RunsEvolves(r, m, q, {}, -1);
        EvolvesWords(r, q);
        CodeGrows(r.w, q.w, inner.code, k);
        var n;
        n, t := Land(q, k, base, caller, o.value, false, |p.s.words|);
        RunsOn(p, 1 + m, q, n, t);
        steps := 1 + m + n;
      }
    } else if o.Wrong? {
      FailsOn(p.s, 1, r.s, m, o.error, start);
    }
  }

  lemma {:induction false} ApplicationRuns(depth: nat, a: Arity, k: Code, d: Data, values: seq<Data>, p: Point,
                                           links: Links, base: nat, n: nat, caller: Caller)
    returns (steps: nat, q: Point)
    requires Calling(p, a, k, d, values, base) && IsContinuation(k) && LinksIn(links, p.s.words)
    requires HasFrame(p.w, base, n, caller, links) && n < |p.s.words|
    ensures Delivers(p, steps, q, Applied(depth, d, values, a.variadic, p.st), k, base, caller, false, {})
    decreases depth, 0, 1
  {
    hide IsData, Holds, HasCode, HasFrame, HasEnv, Reaches, Evolves, Temps, Spread, ParameterValues, Fails, LinksIn,
         IsSimple;
    steps, q := 0, p;
    if Applied(depth, d, values, a.variadic, p.st) != Undefined {
      match d
      case Closure(f, env) => steps, q := ClosureRuns(depth, a, k, f, env, values, p, links, base, n, caller);
      case Primitive(id) =>
        AppliedPrimitive(depth, id, values, a.variadic, p.st);
        FrameInside(p, links, base, n, caller);
        var all := Spread(values, a.variadic).value;
        var tag := all[2].literal.value.n;
        var q1 := CallRib(p, a, k, values, base, tag);
        steps, q := Settle(p, q1, k, base, n, caller, Rib(all[0], all[1], tag % 65536), false, |p.s.words|, links);
      case _ =>
        AppliedOther(depth, d, values, a.variadic, p.st);
        CallOther(p, a, k, d, values, base);
        steps := 1;
    }
  }

  lemma {:induction false} ClosureRuns(depth: nat, a: Arity, k: Code, f: Procedure, env: Env, values: seq<Data>,
                                       p: Point, links: Links, base: nat, n: nat, caller: Caller)
    returns (steps: nat, q: Point)
    requires Calling(p, a, k, Closure(f, env), values, base) && IsContinuation(k) && LinksIn(links, p.s.words)
    requires HasFrame(p.w, base, n, caller, links) && n < |p.s.words|
    requires Applied(depth, Closure(f, env), values, a.variadic, p.st) != Undefined
    ensures Delivers(p, steps, q, Applied(depth, Closure(f, env), values, a.variadic, p.st), k, base, caller, false, {})
    decreases depth, 0, 0
  {
    hide IsData, Holds, HasCode, HasFrame, HasEnv, Reaches, Evolves, Compile, Analyzed, Compilable, Ready,
         Temps, Scope, Spread, ParameterValues, Fails, LinksIn, IsSimple, NamesOf, Applied;
    var o := Applied(depth, Closure(f, env), values, a.variadic, p.st);
    AppliedClosure(depth, f, env, values, a.variadic, p.st);
    var inner := if k.Return? then caller else Caller(Next(p.w, p.s.code.index), base);
    FrameInside(p, links, base, n, caller);
    var r, c := CallClosure(p, a, k, f, env, values, base, n, inner, links);
    steps, q := 1, p;
    if Fits(|Spread(values, a.variadic).value|, ArityOf(f)) {
      ClosureParts(c, f);
      ScopeIsReady(r, f, c, env, |p.st|, inner);
      var m;
      m, q := SequenceRuns(depth - 1, f.body, BindNames(env, f.names, |p.st|), FrameContext(f.names) + c, Return, r,
                           map[], |f.names|, inner);
      assert Own(SequenceMakesClosure(f.body), map[]) == {};
      RunsEvolves(p, 1, r, {}, if k.Return? then 0 else 1);
      EvolvesWords(p, r);
      if !k.Return? {
        CodeGrows(p.w, r.w, inner.code, k);
      }
      steps, q := ReturnToCaller(p, r, m, q, o, k, base, caller, inner, r.s.stack.index);
    }
  }

  lemma {:induction false} AppliedPrimitive(depth: nat, id: int, values: seq<Data>, variadic: bool, st: Locations)
    requires Applied(depth, Data.Primitive(id), values, variadic, st) != Undefined
    ensures id == RIB && Spread(values, variadic).Done? && |Spread(values, variadic).value| == 3
    ensures var all := Spread(values, variadic).value;
            && all[2].Plain? && all[2].literal.Datum? && all[2].literal.value.Number?
            && Applied(depth, Data.Primitive(id), values, variadic, st)
               == Done(Rib(all[0], all[1], all[2].literal.value.n % 65536), st)
  {
  }

  lemma {:induction false} AppliedOther(depth: nat, d: Data, values: seq<Data>, variadic: bool, st: Locations)
    requires Applied(depth, d, values, variadic, st) != Undefined && !d.Closure? && !d.Primitive?
    ensures IsNoProcedure(d) && Applied(depth, d, values, variadic, st) == Wrong(ProcedureExpected)
  {
  }

  lemma {:induction false} CallParts(c: Context, e: Expr)
    requires (e.Call? || e.Apply?) && Compilable(e) && Analyzed(NamesOf(c), e)
    ensures Compilable(e.operator) && Analyzed(NamesOf(c), e.operator)
    ensures ArgumentsCompilable(e.arguments) && ArgumentsAnalyzed(NamesOf(c), e.arguments)
    ensures Free(e.operator) <= Free(e) && FreeInArguments(e.arguments) <= Free(e)
    ensures e.operator.Variable? ==> e.operator.name in Free(e)
    ensures Count(e.arguments) == if CallArity(e).variadic then CallArity(e).count + 1 else CallArity(e).count
  {
  }

  /** The operand of the call instruction is the cell of its operator. */
  lemma {:induction false} OperatorFound(p: Point, links: Links, c: Context, f: Name, a: Arity, k: Code, d: Data,
                                         values: seq<Data>, base: nat, cell: nat)
    requires Holds(p) && HasCode(p.w, p.s.code.index, Code.Call(BuildArity(a), Resolve(c, f), k))
    requires LinksIn(links, p.s.words)
    requires VariableCell(View(p.w, links), c, p.s.stack.index, f) == cell && cell % 2 == 0 && cell + 1 < |p.s.words|
    requires IsData(p.w, d, p.s.words[cell]) && Temps(p, p.s.stack.index, values, base)
    requires |values| == if a.variadic then a.count + 1 else a.count
    ensures Calling(p, a, k, d, values, base)
  {
    hide IsData, Holds, Temps;
    FindsOperand(p, links, Resolve(c, f));
  }

  lemma {:induction false} NamedCallRuns(depth: nat, e: Expr, env: Env, c: Context, k: Code, p: Point, links: Links,
                                         n: nat, caller: Caller)
    returns (steps: nat, q: Point)
    requires (e.Call? || e.Apply?) && Compilable(e) && Analyzed(NamesOf(c), e) && IsContinuation(k)
    requires Ready(p, links, c, env, Free(e), CompileCall(c, e, k), n, caller) && e.operator.Variable?
    ensures Delivers(p, steps, q, EvalCall(depth, e, env, p.st), k, p.s.stack.index, caller, false,
                     Own(ArgumentsMakeClosure(e.arguments), links))
    decreases depth, 1, e, 0
  {
    hide IsData, Holds, HasCode, HasFrame, HasEnv, Reaches, Evolves, Compile, Analyzed, Compilable, Ready,
         Temps, Resolve, Free, VariableCell, Delivers, Collected, Applied, Calling, LinksIn;
    var f, es, a, base := e.operator.name, e.arguments, CallArity(e), p.s.stack.index;
    var own := Own(ArgumentsMakeClosure(es), links);
    NamedCallIs(depth, e, env, p.st);
    hide EvalCall;
    CallParts(c, e);
    ReadyFewer(p, links, c, env, Free(e), CompileCall(c, e, k), n, caller, FreeInArguments(es));
    steps, q := ArgumentsRun(depth, es, env, c, f, BuildArity(a), k, p, links, n, caller);
    var o := EvalArguments(depth, es, env, p.st);
    match o
    case Done(values, st) =>
      CollectedIs(p, steps, q, o, es, links, c, f, BuildArity(a), k, base, own);
      if Look(env, f, st).Done? {
        var r := q;
        RunsEvolves(p, steps, r, own);
        NamedOperator(p, r, own, links, c, env, Free(e), CompileCall(c, e, k), n, caller, f, a, k, values, Count(es));
        var m;
        m, q := ApplicationRuns(depth, a, k, r.st[env[f]], values, r, links, base, n, caller);
        DeliversAfter(p, steps, r, m, q, Applied(depth, r.st[env[f]], values, a.variadic, r.st), k, base, caller,
                      false, own, {});
        steps := steps + m;
      } else {
        UndefinedDelivers(p, steps, q, k, base, caller, false, own);
      }
    case Wrong(error) => CollectedWrong(p, steps, q, error, es, links, c, f, BuildArity(a), k, base, caller, own);
    case Undefined => UndefinedDelivers(p, steps, q, k, base, caller, false, own);
  }

  lemma {:induction false} CollectedIs(p: Point, steps: nat, q: Point, o: Outcome<seq<Data>>, es: Arguments,
                                       links: Links, c: Context, f: Name, arity: nat, k: Code, base: nat,
                                       own: set<nat>)
    requires Collected(p, steps, q, o, es, links, c, f, arity, k, base, own) && o.Done?
    ensures Runs(p, steps, q, own) && q.st == o.store && Holds(q) && |o.value| == Count(es)
    ensures HasCode(q.w, q.s.code.index, Code.Call(arity, Resolve(Below(c, Count(es)), f), k))
    ensures Temps(q, q.s.stack.index, o.value, base)
    ensures VariableCell(View(q.w, links), Below(c, Count(es)), q.s.stack.index, f)
            == VariableCell(View(q.w, links), c, base, f)
  {
  }

  lemma {:induction false} CollectedWrong(p: Point, steps: nat, q: Point, e: VmError, es: Arguments, links: Links,
                                          c: Context, f: Name, arity: nat, k: Code, base: nat, caller: Caller,
                                          own: set<nat>)
    requires Collected(p, steps, q, Wrong(e), es, links, c, f, arity, k, base, own)
    ensures Delivers(p, steps, q, Wrong(e), k, base, caller, false, own)
  {
  }

  // A call in terms of its parts.
  lemma {:induction false} NamedCallIs(depth: nat, e: Expr, env: Env, st: Locations)
    requires (e.Call? || e.Apply?) && e.operator.Variable?
    ensures EvalCall(depth, e, env, st)
            == match EvalArguments(depth, e.arguments, env, st)
               case Done(values, st1) =>
                 var f := Look(env, e.operator.name, st1);
                 if f.Done? then Applied(depth, f.value, values, e.Apply?, st1) else Undefined
               case Wrong(error) => Wrong(error)
               case Undefined => Undefined
  {
  }

  /** A named operator is the variable of that name when the arguments have been computed. */
  lemma {:induction false} NamedOperator(p: Point, q: Point, own: set<nat>, links: Links, c: Context, env: Env,
                                         free: set<Name>, code: Code, n: nat, caller: Caller, f: Name, a: Arity,
                                         k: Code, values: seq<Data>, i: nat)
    requires Ready(p, links, c, env, free, code, n, caller) && f in free && Evolves(p, q, own) && Holds(q)
    requires HasCode(q.w, q.s.code.index, Code.Call(BuildArity(a), Resolve(Below(c, i), f), k))
    requires VariableCell(View(q.w, links), Below(c, i), q.s.stack.index, f)
             == VariableCell(View(q.w, links), c, p.s.stack.index, f)
    requires Temps(q, q.s.stack.index, values, p.s.stack.index)
    requires |values| == if a.variadic then a.count + 1 else a.count
    requires f in env && env[f] < |q.st|
    ensures Calling(q, a, k, q.st[env[f]], values, p.s.stack.index)
    ensures HasFrame(q.w, p.s.stack.index, n, caller, links) && n < |q.s.words| && LinksIn(links, q.s.words)
  {
    hide IsData, Holds, HasCode, HasFrame, HasEnv, Evolves, Temps, Resolve, VariableCell, Below, Calling, LinksIn;
    var base := p.s.stack.index;
    StackStays(p, q, own, links, c, base, env, free, n, caller);
    EnvHas(View(q.w, links), c, base, env, free, f);
    VarIsThere(q, env[f]);
    VarsAsMany(q);
    OperatorFound(q, links, Below(c, i), f, a, k, q.st[env[f]], values, base, q.w.vars[env[f]]);
  }

  lemma {:induction false} EnvHas(w: World, c: Context, stack: nat, env: Env, names: set<Name>, x: Name)
    requires HasEnv(w, c, stack, env, names) && x in names && x in env
    ensures env[x] < |w.vars| && VariableCell(w, c, stack, x) == w.vars[env[x]]
  {
  }

  /** The operator is on the stack before the arguments are computed, and its cell is not yet kept. */
  lemma {:induction false} OperatorReady(p: Point, q: Point, own: set<nat>, links: Links, c: Context, env: Env,
                                         free: set<Name>, code: Code, n: nat, caller: Caller, fewer: set<Name>,
                                         k: Code, d: Data, base: nat, exposed: bool)
    returns (more: Links)
    requires Ready(p, links, c, env, free, code, n, caller) && fewer <= free && p.s.stack.index == base
    requires Evolves(p, q, own) && Holds(q) && HasCode(q.w, q.s.code.index, k) && OPERATOR !in fewer
    requires IsTop(q, d, base, exposed, |p.s.words|)
    ensures Ready(q, more, [Local(OPERATOR)] + c, env, fewer, k, n + 1, caller)
    ensures VariableCell(View(q.w, more), [Local(OPERATOR)] + c, q.s.stack.index, OPERATOR) == q.s.stack.index
    ensures IsOperator(q, q.s.stack.index, base, |p.s.words|, exposed) && IsData(q.w, d, q.s.words[q.s.stack.index])
    ensures more.Keys == links.Keys + {q.s.stack.index + 1}
  {
    hide HasCode, Holds, HasEnv, HasFrame, IsData, Evolves;
    var t := q.s.stack.index;
    more := links[t + 1 := Pointer(Cons(base, PAIR))];
    LinksStay(p, q, links, own);
    LinksAgree(q, more);
    MoreWords(p, q, d, base, exposed, n);
    ReadyAbove(p, q, own, links, more, c, Local(OPERATOR), env, free, code, n, caller, fewer, k, base);
  }

  /** The result of the call takes the place of its operator. */
  lemma {:induction false} LeaveOperator(p: Point, m: nat, q: Point, n: nat, r: Point, o: Outcome<Data>, k: Code,
                                         y: nat, base: nat, caller: Caller, exposed: bool, closes: bool,
                                         links: Links, own: set<nat>)
    returns (steps: nat, t: Point)
    requires Runs(p, m, q, own) && Holds(q) && IsContinuation(k) && IsOperator(q, y, base, |p.s.words|, exposed)
    requires Delivers(q, n, r, o, CompileUnsafeUnbind(k), y, caller, false, Own(closes, links))
    requires forall j :: j in Own(closes, links) ==> j % 2 == 1 && (j in own || j >= |p.s.words|)
    ensures Delivers(p, steps, t, o, k, base, caller, closes || exposed, own)
  {
    hide IsData, Holds, Reaches, Fails, HasCode, IsOperator, Evolves, IsTop;
    var own' := Own(closes, links);
    DeliversAfter(p, m, q, n, r, o, CompileUnsafeUnbind(k), y, caller, false, own, own');
    steps, t := m + n, r;
    if o.Done? && !k.Return? {
      RunsOn(p, m, q, n, r, own, own');
      RunsEvolves(q, n, r, own');
      OperatorStays(q, r, y, base, |p.s.words|, exposed, closes, own');
      steps, t := UnsafeUnbind(p, m + n, r, k, o.value, y, base, caller, closes || exposed, own);
    }
  }

  lemma {:induction false} OperatorStays(q: Point, r: Point, y: nat, base: nat, low: nat, exposed: bool, closes: bool,
                                         own: set<nat>)
    requires IsOperator(q, y, base, low, exposed) && Evolves(q, r, own) && Holds(q)
    requires (forall j :: j in own ==> j % 2 == 1) && (!closes ==> own == {})
    ensures IsOperator(r, y, base, low, closes || exposed)
  {
    hide Holds;
    VarIsEven(q, y + 1);
  }

  lemma {:induction false} OperatorKept(q: Point, r: Point, own: set<nat>, y: nat, base: nat, low: nat, exposed: bool,
                                        d: Data)
    requires IsOperator(q, y, base, low, exposed) && Evolves(q, r, own) && IsData(q.w, d, q.s.words[y])
    ensures y + 1 < |r.s.words| && IsData(r.w, d, r.s.words[y])
  {
    DataGrows(q.w, r.w, d, q.s.words[y]);
  }

  lemma {:induction false} ComputedCallRuns(depth: nat, e: Expr, env: Env, c: Context, k: Code, p: Point,
                                            links: Links, n: nat, caller: Caller)
    returns (steps: nat, q: Point)
    requires (e.Call? || e.Apply?) && Compilable(e) && Analyzed(NamesOf(c), e) && IsContinuation(k)
    requires Ready(p, links, c, env, Free(e), CompileCall(c, e, k), n, caller) && !e.operator.Variable?
    ensures Delivers(p, steps, q, EvalCall(depth, e, env, p.st), k, p.s.stack.index, caller,
                     ArgumentsMakeClosure(e.arguments) || IsExposed(e.operator),
                     Own(MakesClosure(e.operator) || ArgumentsMakeClosure(e.arguments), links))
    decreases depth, 1, e, 0
  {
    hide IsData, Holds, HasCode, HasFrame, HasEnv, Reaches, Evolves, Compile, Analyzed, Compilable, Ready,
         Temps, Resolve, Free, VariableCell, IsOperator, Delivers, Runs, IsTop, MakesClosure, IsExposed,
         ArgumentsMakeClosure, EvalCall, AppliedToRest, Eval, NamesOf, Own;
    var es, a, base := e.arguments, CallArity(e), p.s.stack.index;
    ComputedCallIs(depth, e, env, p.st);
    var c1, k1 := [Local(OPERATOR)] + c, CompileUnsafeUnbind(k);
    var k2 := CompileArguments(c1, OPERATOR, es, BuildArity(a), k1);
    var exposed, closes := IsExposed(e.operator), ArgumentsMakeClosure(es);
    var own1, own := Own(MakesClosure(e.operator), links), Own(MakesClosure(e.operator) || closes, links);
    CallParts(c, e);
    ComputedCallOwns(e, links);
    ArgumentsContinue(c1, OPERATOR, es, BuildArity(a), k1);
    ReadyFewer(p, links, c, env, Free(e), CompileCall(c, e, k), n, caller, Free(e.operator));
    steps, q := CompileRuns(depth, e.operator, env, c, k2, p, links, n, caller);
    var o := Eval(depth, e.operator, env, p.st);
    match o
    case Done(d, st) =>
      Delivered(p, steps, q, o, k2, base, caller, exposed, own1);
      RunsWider(p, steps, q, own1, own);
      RunsEvolves(p, steps, q, own);
      FreeInArgumentsIsNotOperator(es);
      var r := q;
      var more := OperatorReady(p, r, own, links, c, env, Free(e), CompileCall(c, e, k), n, caller,
                                FreeInArguments(es), k2, d, base, exposed);
      NamesBelow(c, Local(OPERATOR));
      var m, t := ArgumentsThenCall(depth, e, env, c1, k1, d, r, more, base, n + 1, caller, |p.s.words|, exposed);
      MoreIsOwn(p, links, c, env, Free(e), CompileCall(c, e, k), n, caller, r, d, base, exposed, more,
                MakesClosure(e.operator), closes);
      steps, q := LeaveOperator(p, steps, r, m, t, AppliedToRest(depth, e, d, env, r.st), k, r.s.stack.index, base,
                                caller, exposed, closes, more, own);
    case Wrong(error) =>
      DeliversWrong(p, steps, q, error, k2, base, caller, exposed, own1, k, base, closes || exposed, own);
    case Undefined => UndefinedDelivers(p, steps, q, k, base, caller, closes || exposed, own);
  }

  lemma {:induction false} ComputedCallOwns(e: Expr, links: Links)
    requires e.Call? || e.Apply?
    ensures var closes := ArgumentsMakeClosure(e.arguments);
            Own(MakesClosure(e.operator), links) <= Own(MakesClosure(e.operator) || closes, links)
  {
  }

  lemma {:induction false} MoreIsOwn(p: Point, links: Links, c: Context, env: Env, free: set<Name>, code: Code, n: nat,
                                     caller: Caller, q: Point, d: Data, base: nat, exposed: bool, more: Links,
                                     first: bool, closes: bool)
    requires Ready(p, links, c, env, free, code, n, caller) && IsTop(q, d, base, exposed, |p.s.words|)
    requires more.Keys == links.Keys + {q.s.stack.index + 1}
    ensures forall j :: j in Own(closes, more) ==> j % 2 == 1 && (j in Own(first || closes, links) || j >= |p.s.words|)
  {
    hide IsData, Holds, HasEnv, HasCode;
    forall j | j in Own(closes, more) ensures j % 2 == 1 && (j in links || j >= |p.s.words|) {
      assert j in more.Keys;
    }
  }

  /** What remains of a call when its operator has been computed. */
  function AppliedToRest(depth: nat, e: Expr, d: Data, env: Env, st: Locations): Outcome<Data>
    requires e.Call? || e.Apply?
  {
    var (values, st1) :- EvalArguments(depth, e.arguments, env, st);
    Applied(depth, d, values, e.Apply?, st1)
  }

  lemma {:induction false} ComputedCallIs(depth: nat, e: Expr, env: Env, st: Locations)
    requires (e.Call? || e.Apply?) && !e.operator.Variable?
    ensures EvalCall(depth, e, env, st)
            == match Eval(depth, e.operator, env, st)
               case Done(d, st1) => AppliedToRest(depth, e, d, env, st1)
               case Wrong(error) => Wrong(error)
               case Undefined => Undefined
  {
  }

  lemma {:induction false} ArgumentsThenCall(depth: nat, e: Expr, env: Env, c: Context, k: Code, d: Data, p: Point,
                                             links: Links, base: nat, n: nat, caller: Caller, low: nat, exposed: bool)
    returns (steps: nat, q: Point)
    requires (e.Call? || e.Apply?) && IsContinuation(k)
    requires ArgumentsCompilable(e.arguments) && ArgumentsAnalyzed(NamesOf(c), e.arguments)
    requires Count(e.arguments) == if CallArity(e).variadic then CallArity(e).count + 1 else CallArity(e).count
    requires Ready(p, links, c, env, FreeInArguments(e.arguments),
                   CompileArguments(c, OPERATOR, e.arguments, BuildArity(CallArity(e)), k), n, caller)
    requires VariableCell(View(p.w, links), c, p.s.stack.index, OPERATOR) == p.s.stack.index
    requires IsOperator(p, p.s.stack.index, base, low, exposed) && IsData(p.w, d, p.s.words[p.s.stack.index])
    ensures Delivers(p, steps, q, AppliedToRest(depth, e, d, env, p.st), k, p.s.stack.index, caller, false,
                     Own(ArgumentsMakeClosure(e.arguments), links))
    decreases depth, 1, e.arguments, 1
  {
    hide IsData, Holds, HasCode, HasFrame, HasEnv, Reaches, Evolves, Ready, Temps, Resolve, VariableCell, Fails,
         LinksIn, ArgumentsMakeClosure, Delivers, Collected, Runs, Compile, Applied, IsOperator, NamesOf, Calling,
         Below;
    var es, a, y, own := e.arguments, CallArity(e), p.s.stack.index, Own(ArgumentsMakeClosure(e.arguments), links);
    ReadyIs(p, links, c, env, FreeInArguments(es), CompileArguments(c, OPERATOR, es, BuildArity(a), k), n, caller);
    steps, q := ArgumentsRun(depth, es, env, c, OPERATOR, BuildArity(a), k, p, links, n, caller);
    var o := EvalArguments(depth, es, env, p.st);
    if o.Done? {
      var r := q;
      CollectedIs(p, steps, r, o, es, links, c, OPERATOR, BuildArity(a), k, y, own);
      RunsEvolves(p, steps, r, own);
      StackStays(p, r, own, links, c, y, env, FreeInArguments(es), n, caller);
      OperatorStillFound(p, r, own, links, c, Count(es), a, k, d, o.value, y, base, low, exposed);
      var m;
      m, q := ApplicationRuns(depth, a, k, d, o.value, r, links, y, n, caller);
      DeliversAfter(p, steps, r, m, q, Applied(depth, d, o.value, a.variadic, r.st), k, y, caller, false, own, {});
      steps := steps + m;
    } else if o.Wrong? {
      CollectedWrong(p, steps, q, o.error, es, links, c, OPERATOR, BuildArity(a), k, y, caller, own);
    } else {
      UndefinedDelivers(p, steps, q, k, y, caller, false, own);
    }
  }

  lemma {:induction false} OperatorStillFound(p: Point, r: Point, own: set<nat>, links: Links, c: Context, i: nat,
                                              a: Arity, k: Code, d: Data, values: seq<Data>, y: nat, base: nat,
                                              low: nat, exposed: bool)
    requires Evolves(p, r, own) && Holds(r) && LinksIn(links, r.s.words)
    requires HasCode(r.w, r.s.code.index, Code.Call(BuildArity(a), Resolve(Below(c, i), OPERATOR), k))
    requires VariableCell(View(p.w, links), c, y, OPERATOR) == y
    requires VariableCell(View(r.w, links), Below(c, i), r.s.stack.index, OPERATOR)
             == VariableCell(View(r.w, links), c, y, OPERATOR)
    requires IsOperator(p, y, base, low, exposed) && IsData(p.w, d, p.s.words[y])
    requires Temps(r, r.s.stack.index, values, y) && |values| == if a.variadic then a.count + 1 else a.count
    ensures Calling(r, a, k, d, values, y)
  {
    hide IsData, Holds, HasCode, Temps, Resolve, VariableCell, LinksIn, Calling, Below;
    EvolvesWords(p, r, own);
    OperatorKept(p, r, own, y, base, low, exposed, d);
    ViewGrows(p.w, r.w, links);
    CellStays(View(p.w, links), View(r.w, links), c, y, OPERATOR);
    OperatorFound(r, links, Below(c, i), OPERATOR, a, k, d, values, y, y);
  }

  lemma {:induction false} CellStays(w: World, w': World, c: Context, stack: nat, x: Name)
    requires Grows(w, w') && VariableCell(w, c, stack, x) >= 0
    ensures VariableCell(w', c, stack, x) == VariableCell(w, c, stack, x)
  {
    if CodeGenerator.IndexOf(c, x) >= 0 {
      CellGrows(w, w', stack, CodeGenerator.IndexOf(c, x));
    }
  }

  lemma {:induction false} CallRuns(depth: nat, e: Expr, env: Env, c: Context, k: Code, p: Point, links: Links,
                                    n: nat, caller: Caller)
    returns (steps: nat, q: Point)
    requires (e.Call? || e.Apply?) && Compilable(e) && Analyzed(NamesOf(c), e) && IsContinuation(k)
    requires Ready(p, links, c, env, Free(e), CompileCall(c, e, k), n, caller)
    ensures Delivers(p, steps, q, EvalCall(depth, e, env, p.st), k, p.s.stack.index, caller, IsExposed(e),
                     Own(MakesClosure(e), links))
    decreases depth, 1, e, 1
  {
    hide Ready, Compile, Analyzed, Compilable, Delivers, EvalCall, IsContinuation;
    if e.operator.Variable? {
      steps, q := NamedCallRuns(depth, e, env, c, k, p, links, n, caller);
    } else {
      steps, q := ComputedCallRuns(depth, e, env, c, k, p, links, n, caller);
    }
  }
}
