/** Each kind of instruction that the code generator emits, on the points of module `Worlds`. */
module Instructions {
  import opened Stores
  import opened Scheme
  import opened CodeGenerator
  import opened Machine
  import opened Worlds
  import opened Execution
  import Depth

  // ----- stacks -----

  /** A point whose top cell has become part of the stack of what follows. */
  function Covered(p: Point): Point
    requires p.s.stack.index + 1 < |p.s.words|
  {
    Fix(p, p.s.stack.index + 1)
  }

  lemma {:induction false} Covering(p: Point, d: Data, base: nat, exposed: bool, low: nat)
    requires Holds(p) && IsTop(p, d, base, exposed, low)
    ensures Holds(Covered(p)) && Grows(p.w, Covered(p).w) && HasNext(Covered(p).w, p.s.stack.index)
    ensures Next(Covered(p).w, p.s.stack.index) == base
    ensures Covered(p).w.fixed[p.s.stack.index + 1] == Pointer(Cons(base, PAIR))
    ensures IsData(Covered(p).w, d, p.s.words[p.s.stack.index]) && p.s.stack.index !in Covered(p).w.fixed
  {
    hide IsData;
    VarIsEven(p, p.s.stack.index + 1);
    Fixed(p, p.s.stack.index + 1);
    DataGrows(p.w, Covered(p).w, d, p.s.words[p.s.stack.index]);
  }

  /** From a point that has evolved, covering the top leads to one that has evolved too. */
  lemma {:induction false} CoveringEvolves(o: Point, p: Point, d: Data, base: nat, exposed: bool,
                                           own: set<nat> := {})
    requires Holds(p) && IsTop(p, d, base, exposed, |o.s.words|) && Evolves(o, p, own)
    ensures Evolves(o, Covered(p), own)
  {
  }

  lemma {:induction false} FrameBelow(w: World, t: nat, base: nat, n: nat, caller: Caller, links: Links := map[])
    requires HasNext(View(w, links), t) && View(w, links).fixed[t + 1] == Pointer(Cons(base, PAIR)) && base < t
    requires HasFrame(w, base, n, caller, links)
    ensures HasFrame(w, t, n + 1, caller, links)
  {
  }

  /** Variables keep their cells when a value is pushed. */
  lemma {:induction false} CellBelow(w: World, c: Context, slot: Slot, t: nat, base: nat, x: Name)
    requires HasNext(w, t) && Next(w, t) == base && slot != Local(x)
    ensures VariableCell(w, [slot] + c, t, x) == VariableCell(w, c, base, x)
  {
    assert ([slot] + c)[1..] == c;
  }

  lemma {:induction false} EnvBelow(w: World, c: Context, t: nat, base: nat, env: Env, names: set<Name>)
    requires HasNext(w, t) && Next(w, t) == base && HasEnv(w, c, base, env, names)
    ensures HasEnv(w, [Hidden] + c, t, env, names)
  {
    forall x | x in names && x in env ensures VariableCell(w, [Hidden] + c, t, x) == VariableCell(w, c, base, x) {
      CellBelow(w, c, Hidden, t, base, x);
    }
  }

  /** A pushed value may become a variable. */
  lemma {:induction false} EnvBinds(w: World, c: Context, t: nat, base: nat, env: Env, names: set<Name>, x: Name,
                                    l: nat)
    requires HasNext(w, t) && Next(w, t) == base && HasEnv(w, c, base, env, names - {x})
    requires l < |w.vars| && w.vars[l] == t
    ensures HasEnv(w, [Local(x)] + c, t, env[x := l], names)
  {
    forall y | y in names && y in env[x := l]
      ensures env[x := l][y] < |w.vars| && VariableCell(w, [Local(x)] + c, t, y) == w.vars[env[x := l][y]]
    {
      if y != x {
        CellBelow(w, c, Local(x), t, base, y);
      }
    }
  }

  lemma {:induction false} Popped(p: Point, d: Data, base: nat, exposed: bool, low: nat)
    requires IsTop(p, d, base, exposed, low)
    ensures PopOf(p.s) == Run.Ok((p.s.words[p.s.stack.index], p.s.(stack := Cons(base, PAIR))))
    ensures !p.s.words[p.s.stack.index].IsNever()
  {
    DataIsNotNever(p.w, d, p.s.words[p.s.stack.index]);
  }

  // ----- constants and variables -----

  lemma {:induction false} PushConstant(p: Point, l: Literal, k: Code) returns (q: Point)
    requires Holds(p) && HasCode(p.w, p.s.code.index, Push(Quoted(l), k)) && IsContinuation(k)
    requires p.s.stack.index < |p.s.words|
    ensures Pushes(p, q, k, Plain(l), p.s.stack.index, false, |p.s.words|) && q.st == p.st
  {
    var v := p.w.fixed[p.s.code.index];
    assert HasLiteral(p.w, l, v) && IsData(p.w, Plain(l), v);
    hide IsData;
    assert CarOf(p.s, p.s.code) == Run.Ok(v);
    Pushed(p, Plain(l), v);
    PushIsSimple(p.s, InstructionAt(p));
    q := p.(s := PushOf(p.s, v).value);
  }

  /** The operand for a variable is the cell of its location. */
  lemma {:induction false} FindsVariable(p: Point, links: Links, c: Context, env: Env, x: Name)
    requires Holds(p) && IsFixed(p.w, p.s.code.index) && HasOperand(p.w, Resolve(c, x), p.w.fixed[p.s.code.index])
    requires LinksIn(links, p.s.words)
    requires x in env && env[x] < |p.st| && HasEnv(View(p.w, links), c, p.s.stack.index, env, {x})
    ensures OperandCons(p.s).Ok? && OperandCons(p.s).value.index == p.w.vars[env[x]]
  {
    hide IsData;
    assert x in {x};
    FindsOperand(p, links, Resolve(c, x));
  }

  lemma {:induction false} GetVariable(p: Point, links: Links, c: Context, env: Env, x: Name, k: Code)
    returns (q: Point)
    requires Holds(p) && HasCode(p.w, p.s.code.index, Get(Resolve(c, x), k)) && IsContinuation(k)
    requires LinksIn(links, p.s.words) && p.s.stack.index < |p.s.words|
    requires x in env && env[x] < |p.st| && HasEnv(View(p.w, links), c, p.s.stack.index, env, {x})
    ensures Pushes(p, q, k, p.st[env[x]], p.s.stack.index, false, |p.s.words|) && q.st == p.st
  {
    hide IsData, HasEnv;
    FindsVariable(p, links, c, env, x);
    VarIsThere(p, env[x]);
    var v := p.s.words[p.w.vars[env[x]]];
    Pushed(p, p.st[env[x]], v);
    PushIsSimple(p.s, InstructionAt(p));
    q := p.(s := PushOf(p.s, v).value);
  }

  lemma {:induction false} HoldsOperand(p: Point, o: Operand, k: Code)
    requires HasCode(p.w, p.s.code.index, Set(o, k))
    ensures IsFixed(p.w, p.s.code.index) && HasOperand(p.w, o, p.w.fixed[p.s.code.index])
  {
  }

  /** The write goes to the cell of the variable. */
  lemma {:induction false} SetsVariable(p: Point, links: Links, c: Context, env: Env, x: Name, k: Code, d: Data,
                                        base: nat, exposed: bool, low: nat)
    requires Holds(p) && HasCode(p.w, p.s.code.index, Set(Resolve([Hidden] + c, x), k))
    requires IsTop(p, d, base, exposed, low) && LinksIn(links, p.s.words)
    requires x in env && env[x] < |p.st| && HasEnv(View(p.w, links), c, base, env, {x})
    ensures p.w.vars[env[x]] < |p.s.words| && IsSimple(p.s, InstructionAt(p))
    ensures var v := p.s.words[p.s.stack.index];
            SetOf(p.s) == Run.Ok(p.s.(words := p.s.words[p.w.vars[env[x]] := v], stack := Cons(base, PAIR)))
  {
    hide IsData, HasEnv, HasPrimitive, Resolve, IsSimple, HasCode, Holds, LinksIn;
    SetIsAt(p, Resolve([Hidden] + c, x), k);
    HoldsOperand(p, Resolve([Hidden] + c, x), k);
    var q := Covered(p);
    Covering(p, d, base, exposed, low);
    LinksAgree(q, links);
    ViewGrows(p.w, q.w, links);
    EnvGrows(View(p.w, links), View(q.w, links), c, base, env, {x});
    EnvBelow(View(q.w, links), c, p.s.stack.index, base, env, {x});
    FindsVariable(q, links, [Hidden] + c, env, x);
    Popped(p, d, base, exposed, low);
    VarIsThere(p, env[x]);
    SetIsSimple(p, d, base, exposed, low, InstructionAt(p));
  }

  lemma {:induction false} SetIsAt(p: Point, o: Operand, k: Code)
    requires Holds(p) && HasCode(p.w, p.s.code.index, Set(o, k))
    ensures At(p, k) && p.s.code.index != p.w.nil && InstructionAt(p).tag == SET
  {
  }

  lemma {:induction false} AssignVariable(p: Point, links: Links, c: Context, env: Env, x: Name, k: Code, d: Data,
                                          base: nat, exposed: bool, low: nat)
    returns (r: Point)
    requires Holds(p) && HasCode(p.w, p.s.code.index, Set(Resolve([Hidden] + c, x), k)) && Continues(k)
    requires IsTop(p, d, base, exposed, low) && LinksIn(links, p.s.words)
    requires x in env && env[x] < |p.st| && HasEnv(View(p.w, links), c, base, env, {x})
    ensures Runs(p, 1, r) && Holds(r) && r.st == p.st[env[x] := d]
    ensures r.s.stack.index == base && HasCode(r.w, r.s.code.index, k) && r.w == p.w
  {
    hide IsData, HasEnv, AdvanceOf, Reaches, HasPrimitive, SetOf, Resolve, Holds, Evolves, IsSimple, LinksIn, HasCode;
    SetIsAt(p, Resolve([Hidden] + c, x), k);
    SetsVariable(p, links, c, env, x, k, d, base, exposed, low);
    VarsAsMany(p);
    var v := p.s.words[p.s.stack.index];
    VarAssigned(p, env[x], d, v);
    var q1 := Assigned(p, env[x], d, v);
    var s1 := q1.s.(stack := Cons(base, PAIR));
    OnlyRoots(q1, s1);
    var q2 := q1.(s := s1);
    HoldsFixed(q2);
    AdvanceTo(q2, k);
    SimpleStep(p, k, s1);
    r := q2.(s := AdvanceOf(s1).value);
    OnlyRoots(q2, r.s);
    EvolvesTrans(p, q1, q2);
    EvolvesTrans(p, q2, r);
  }

  lemma {:induction false} VarsAsMany(p: Point)
    requires Holds(p)
    ensures |p.w.vars| == |p.st|
  {
  }

  // ----- branches -----

  lemma {:induction false} TruthIsNotFalse(w: World, d: Data, v: Value, no: Cons)
    requires IsData(w, d, v) && no.index == w.no && w.nil != w.no
    ensures Truth(d) <==> !v.Same(Pointer(no))
  {
  }

  /** A taken branch overwrites the popped cell, which no environment must hold. */
  lemma {:induction false} TakeBranch(o: Point, m: nat, p: Point, b: Code, e: Code, d: Data, base: nat,
                                      own: set<nat>)
    returns (r: Point)
    requires Runs(o, m, p, own) && Holds(p) && HasCode(p.w, p.s.code.index, Branch(b, e))
    requires Continues(b) && Continues(e) && IsTop(p, d, base, false, |o.s.words|)
    ensures Runs(o, m + 1, r, own) && Holds(r) && r.st == p.st && r.w == p.w && r.s.stack.index == base
    ensures HasCode(r.w, r.s.code.index, if Truth(d) then b else e)
  {
    hide IsData, Reaches, HasPrimitive, Holds, Evolves, HasCode, IsTop;
    if Truth(d) {
      r := BranchTaken(p, b, e, d, base, |o.s.words|);
      TopOverwritten(o, p, r, d, base, own);
    } else {
      r := BranchPassed(p, b, e, d, base, |o.s.words|);
      OnlyRoots(p, r.s);
      EvolvesTrans(o, p, r, own);
    }
    ReachesOn(o.s, m, p.s, 1, r.s, 0, 0);
  }

  lemma {:induction false} TopOverwritten(o: Point, p: Point, r: Point, d: Data, base: nat, own: set<nat>)
    requires Evolves(o, p, own) && IsTop(p, d, base, false, |o.s.words|) && r.w == p.w && r.s.no == p.s.no
    requires |r.s.words| == |p.s.words|
    requires forall j :: 0 <= j < |p.s.words| && j != p.s.stack.index + 1 ==> r.s.words[j] == p.s.words[j]
    ensures Evolves(o, r, own)
  {
    hide IsData;
  }

  lemma {:induction false} BranchPassed(p: Point, b: Code, e: Code, d: Data, base: nat, low: nat) returns (r: Point)
    requires Holds(p) && HasCode(p.w, p.s.code.index, Branch(b, e)) && Continues(e)
    requires IsTop(p, d, base, false, low) && !Truth(d)
    ensures Reaches(p.s, 1, r.s) && Holds(r) && r == p.(s := r.s)
    ensures r.s.stack.index == base && r.s.words == p.s.words && r.s.no == p.s.no
    ensures HasCode(r.w, r.s.code.index, e)
  {
    hide IsData, Reaches, HasPrimitive, AdvanceOf, IsSimple;
    Popped(p, d, base, false, low);
    TruthIsNotFalse(p.w, d, p.s.words[p.s.stack.index], p.s.no);
    var s1 := p.s.(stack := Cons(base, PAIR));
    assert IfOf(p.s) == Run.Ok(s1);
    BranchIsSimple(p, d, base, false, low, InstructionAt(p));
    OnlyRoots(p, s1);
    AdvanceTo(p.(s := s1), e);
    SimpleStep(p, e, s1);
    r := p.(s := AdvanceOf(s1).value);
    OnlyRoots(p, r.s);
  }

  lemma {:induction false} BranchComputes(p: Point, b: Code, e: Code, d: Data, base: nat, exposed: bool,
                                          low: nat)
    requires Holds(p) && HasCode(p.w, p.s.code.index, Branch(b, e)) && Continues(b)
    requires IsTop(p, d, base, exposed, low) && Truth(d)
    ensures var t, branch := p.s.stack.index, p.w.fixed[p.s.code.index].cons;
            IfOf(p.s) == Run.Ok(p.s.(words := p.s.words[t + 1 := Pointer(branch.SetTag(PAIR))],
                                     stack := Cons(base, PAIR), code := p.s.stack))
  {
    hide IsData, HasPrimitive;
    Popped(p, d, base, exposed, low);
    TruthIsNotFalse(p.w, d, p.s.words[p.s.stack.index], p.s.no);
    assert CarOf(p.s.(stack := Cons(base, PAIR)), p.s.code) == Run.Ok(p.w.fixed[p.s.code.index]);
  }

  lemma {:induction false} BranchTaken(p: Point, b: Code, e: Code, d: Data, base: nat, low: nat) returns (r: Point)
    requires Holds(p) && HasCode(p.w, p.s.code.index, Branch(b, e)) && Continues(b)
    requires IsTop(p, d, base, false, low) && Truth(d)
    ensures Reaches(p.s, 1, r.s) && Holds(r) && r.st == p.st && r.w == p.w && r.s.stack.index == base
    ensures HasCode(r.w, r.s.code.index, b)
    ensures r.s.no == p.s.no && |r.s.words| == |p.s.words|
    ensures forall j :: 0 <= j < |p.s.words| && j != p.s.stack.index + 1 ==> r.s.words[j] == p.s.words[j]
  {
    hide IsData, Reaches, HasPrimitive, AdvanceOf, IfOf, Holds, IsSimple;
    BranchComputes(p, b, e, d, base, false, low);
    var branch := p.w.fixed[p.s.code.index].cons;
    var s2 := IfOf(p.s).value;
    CodeContinues(p.w, branch.index, b);
    AdvanceBranch(p, s2, branch);
    BranchStep(p, b, e, d, base, false, low, s2);
    TopMoved(p, d, base, low, Pointer(branch.SetTag(PAIR)));
    r := p.(s := s2.(code := branch.SetTag(PAIR)));
    OnlyRoots(p.(s := p.s.(words := s2.words)), r.s);
  }

  lemma {:induction false} AdvanceBranch(p: Point, s: Store, branch: Cons)
    requires Holds(p) && s.no == p.s.no && IsCell(p.s, s.code)
    requires s.words == p.s.words[s.code.index + 1 := Pointer(branch.SetTag(PAIR))]
    requires branch.index != p.w.nil
    ensures AdvanceOf(s) == Run.Ok(s.(code := branch.SetTag(PAIR))) && !IsAtEnd(s)
  {
    hide IsData;
    NullIsNil(p);
    assert NullOf(s) == NullOf(p.s);
  }

  lemma {:induction false} BranchStep(p: Point, b: Code, e: Code, d: Data, base: nat, exposed: bool, low: nat,
                                      s1: Store)
    requires Holds(p) && HasCode(p.w, p.s.code.index, Branch(b, e)) && IsTop(p, d, base, exposed, low)
    requires IfOf(p.s) == Run.Ok(s1) && AdvanceOf(s1).Ok? && !IsAtEnd(s1)
    ensures Reaches(p.s, 1, AdvanceOf(s1).value)
  {
    hide IsData, Reaches, AdvanceOf, IfOf, Holds, Depth.StaysInFrame, Depth.IsClosureCall;
    BranchIsSimple(p, d, base, exposed, low, InstructionAt(p));
    OneStep(p, e, s1);
  }

  /** The other half: a taken branch leaves a cell that an environment holds as it was only if the branch itself is
      the stack below. */
  lemma {:induction false} TakenBranchKeepsIff(p: Point, b: Code, e: Code, d: Data, base: nat, exposed: bool, low: nat)
    requires Holds(p) && HasCode(p.w, p.s.code.index, Branch(b, e)) && Continues(b)
    requires IsTop(p, d, base, exposed, low) && Truth(d)
    ensures StepsOf(p.s, 1).Ok?
    ensures FixedIn(p.w, StepsOf(p.s, 1).value.words)
            <==> p.s.stack.index + 1 !in p.w.fixed || p.w.fixed[p.s.code.index].cons.index == base
  {
    hide IsData, HasPrimitive, AdvanceOf, IfOf, Holds, Behaves;
    BranchComputes(p, b, e, d, base, exposed, low);
    var branch := p.w.fixed[p.s.code.index].cons;
    var s2 := IfOf(p.s).value;
    CodeContinues(p.w, branch.index, b);
    AdvanceBranch(p, s2, branch);
    BranchStep(p, b, e, d, base, exposed, low, s2);
    OverwrittenIff(p, d, base, exposed, low, branch, AdvanceOf(s2).value.words);
  }

  lemma {:induction false} OverwrittenIff(p: Point, d: Data, base: nat, exposed: bool, low: nat, branch: Cons,
                                          words: seq<Value>)
    requires Holds(p) && IsTop(p, d, base, exposed, low)
    requires words == p.s.words[p.s.stack.index + 1 := Pointer(branch.SetTag(PAIR))]
    ensures FixedIn(p.w, words) <==> p.s.stack.index + 1 !in p.w.fixed || branch.index == base
  {
    hide IsData, HasPrimitive, HoldsVar;
  }

  // ----- new cells -----

  function Made(p: Point, car: Value, cdr: Value): Point {
    var i, s' := |p.s.words|, Allocate(p.s, car, cdr);
    p.(s := s', w := p.w.(fixed := p.w.fixed[i := car][i + 1 := cdr]))
  }

  /** A new cell that is never changed. */
  lemma {:induction false} CellMade(p: Point, car: Value, cdr: Value)
    requires Holds(p)
    ensures Holds(Made(p, car, cdr)) && Evolves(p, Made(p, car, cdr)) && Grows(p.w, Made(p, car, cdr).w)
    ensures IsFixed(Made(p, car, cdr).w, |p.s.words|)
    ensures |p.s.words| != p.w.no && |p.s.words| != p.w.nil
  {
    hide IsData, HasPrimitive;
    var i := |p.s.words|;
    var q := p.(s := Allocate(p.s, car, cdr));
    Allocated(p, q.s);
    VarsInRange(p, i);
    VarsInRange(p, i + 1);
    Fixed(q, i);
    Fixed(Fix(q, i), i + 1);
    assert Made(p, car, cdr) == Fix(Fix(q, i), i + 1);
  }

  // ----- primitives -----

  /** A primitive is called with its arguments on the stack, those of a variadic call spread out. */
  lemma {:induction false} CallsPrimitive(p: Point, id: int, a: Arity)
    requires Holds(p) && HasNext(p.w, p.s.code.index) && InstructionAt(p).tag == CALL + BuildArity(a)
    requires OperandCons(p.s).Ok? && IsCell(p.s, OperandCons(p.s).value)
    requires var v := Car(p.s, OperandCons(p.s).value); v.Pointer? && IsPrimitive(p.w, v.cons.index, id)
    requires Depth.Spread(p.s, a).Ok?
    requires a.variadic ==> Depth.Height(p.s.words, p.s.stack.index) > 0
    requires var s1 := Depth.Spread(p.s, a).value; Depth.Height(s1.words, s1.stack.index) >= Depth.Needed(id)
    ensures ExecuteOf(p.s, InstructionAt(p)) == OperateOf(Depth.Spread(p.s, a).value, id)
    ensures IsSimple(p.s, InstructionAt(p))
  {
    hide IsData, OperandCons, Depth.Height, SpreadArgumentsOf, OperateOf;
    NullIsNil(p);
    var procedure := Car(p.s, OperandCons(p.s).value).cons;
    assert ProcedureOf(p.s) == Run.Ok(procedure);
    assert CdrOf(p.s, procedure) == Run.Ok(p.w.fixed[procedure.index + 1]);
    assert CarOf(p.s, procedure) == Run.Ok(Number(id));
    ArityRoundTrip(a, 0);
    assert CallOf(p.s, InstructionAt(p), BuildArity(a)) == Run.Ok(Called.Primitive(Depth.Spread(p.s, a).value, id));
  }

  lemma {:induction false} CallsSymbol(p: Point, x: Name, id: int, n: nat, k: Code)
    requires Holds(p) && HasCode(p.w, p.s.code.index, Code.Call(2 * n, Symbol(x), k)) && HasPrimitive(p.w, x, id)
    requires Depth.Height(p.s.words, p.s.stack.index) >= Depth.Needed(id)
    ensures ExecuteOf(p.s, InstructionAt(p)) == OperateOf(p.s, id) && IsSimple(p.s, InstructionAt(p))
  {
    hide IsData, IsSimple, Depth.Height;
    FindsOperand(p, map[], Symbol(x));
    assert p.s.words[p.w.symbols[x]] == p.w.fixed[p.w.symbols[x]];
    assert BuildArity(Arity(n, false)) == 2 * n;
    CallsPrimitive(p, id, Arity(n, false));
  }

  /** The end of a `let` form drops the variable below the value. */
  lemma {:induction false} UnbindTop(p: Point, k: Code, d: Data, y: nat, base: nat, low: nat) returns (q: Point)
    requires Holds(p) && HasCode(p.w, p.s.code.index, Code.Call(4, Symbol("$$unbind"), k)) && IsContinuation(k)
    requires exists exposed :: IsTop(p, d, y, exposed, low)
    requires HasNext(p.w, y) && Next(p.w, y) == base && base < y && p.w.fixed[y + 1].cons.tag != FRAME
    ensures Pushes(p, q, k, d, base, false, |p.s.words|) && q.st == p.st
  {
    hide IsData, HasPrimitive, IsSimple;
    var exposed :| IsTop(p, d, y, exposed, low);
    TopIsHigh(p, d, y, exposed, low);
    assert Depth.Height(p.s.words, y) >= 1;
    hide Depth.Height;
    CallsSymbol(p, "$$unbind", UNBIND, 2, k);
    Popped(p, d, y, exposed, low);
    var v := p.s.words[p.s.stack.index];
    var s2 := p.s.(stack := p.w.fixed[y + 1].cons);
    assert PopOf(p.s.(stack := Cons(y, PAIR))) == Run.Ok((p.s.words[y], s2));
    Allocated(p, s2);
    Pushed(p.(s := s2), d, v);
    assert OperateOf(p.s, UNBIND) == PushOf(s2, v);
    q := p.(s := PushOf(s2, v).value);
    EvolvesTrans(p, p.(s := s2), q);
  }

  // ----- procedures -----

  lemma {:induction false} IsRoutine(w: World, c: Context, env: Env, f: Procedure, i: nat, v: Value)
    requires HasConstant(w, CompileProcedure(c, f), v)
    requires IsProcedure(w, i) && w.fixed[i] == w.fixed[v.cons.index]
    requires HasEnv(w, c, Next(w, i), env, Free(Lambda(f)))
    requires Compilable(Lambda(f)) && Analyzed(NamesOf(c), Lambda(f))
    ensures IsData(w, Closure(f, env), Pointer(Cons(i, 0)))
  {
    hide HasEnv, CompileSequence;
    assert ClosesOver(w, i, f, env, c);
  }

  lemma {:induction false} DataIgnoresTag(w: World, d: Data, v: Value, u: Value)
    requires IsData(w, d, v) && u.Same(v)
    ensures IsData(w, d, u)
  {
  }

  lemma {:induction false} PushProcedure(p: Point, c: Context, env: Env, f: Procedure, k: Code) returns (q: Point)
    requires Holds(p) && HasCode(p.w, p.s.code.index, Push(CompileProcedure(c, f), k)) && IsContinuation(k)
    requires HasEnv(p.w, c, p.w.nil, env, Free(Lambda(f)))
    requires Compilable(Lambda(f)) && Analyzed(NamesOf(c), Lambda(f)) && p.s.stack.index < |p.s.words|
    ensures Pushes(p, q, k, Closure(f, env), p.s.stack.index, false, |p.s.words|) && q.st == p.st
    ensures HasConstant(q.w, CompileProcedure(c, f), q.s.words[q.s.stack.index])
  {
    hide IsData, HasEnv, CompileProcedure, HasPrimitive;
    var v := p.w.fixed[p.s.code.index];
    assert CarOf(p.s, p.s.code) == Run.Ok(v);
    assert HasConstant(p.w, CompileProcedure(c, f), v);
    hide HasConstant, HasRoutine, Compilable, Analyzed, Free;
    RoutineIsProcedure(p.w, c, f, v);
    IsRoutine(p.w, c, env, f, v.cons.index, v);
    DataIgnoresTag(p.w, Closure(f, env), Pointer(Cons(v.cons.index, 0)), v);
    Pushed(p, Closure(f, env), v);
    PushIsSimple(p.s, InstructionAt(p));
    q := p.(s := PushOf(p.s, v).value);
  }

  lemma {:induction false} RoutineIsProcedure(w: World, c: Context, f: Procedure, v: Value)
    requires HasConstant(w, CompileProcedure(c, f), v)
    ensures v.Pointer? && IsProcedure(w, v.cons.index) && Next(w, v.cons.index) == w.nil
  {
  }

  lemma {:induction false} ClosesTop(p: Point, d: Data, base: nat, low: nat, v: Value, code: Value)
    requires Holds(p) && IsTop(p, d, base, false, low) && p.s.words[p.s.stack.index] == v
    requires v.Pointer? && IsProcedure(p.w, v.cons.index) && p.w.fixed[v.cons.index] == code
    ensures var s1 := p.s.(stack := Cons(base, PAIR));
            CloseOf(p.s) == PushOf(Allocate(s1, code, Pointer(Cons(base, PROCEDURE))), Pointer(Cons(|p.s.words|, 0)))
  {
    hide IsData, HasPrimitive;
    Popped(p, d, base, false, low);
    var s1 := p.s.(stack := Cons(base, PAIR));
    assert CarOf(s1, v.cons) == Run.Ok(code);
  }

  lemma {:induction false} ClosureMade(p: Point, c: Context, env: Env, f: Procedure, v: Value, base: nat)
    requires Holds(p) && HasConstant(p.w, CompileProcedure(c, f), v)
    requires HasEnv(p.w, c, base, env, Free(Lambda(f)))
    requires Compilable(Lambda(f)) && Analyzed(NamesOf(c), Lambda(f))
    ensures v.Pointer? && IsProcedure(p.w, v.cons.index)
    ensures var q := Made(p, p.w.fixed[v.cons.index], Pointer(Cons(base, PROCEDURE)));
            Holds(q) && Evolves(p, q) && IsData(q.w, Closure(f, env), Pointer(Cons(|p.s.words|, 0)))
  {
    hide IsData, HasPrimitive, HasEnv, CompileProcedure, Free, Compilable, Analyzed, Holds, Evolves, HasConstant;
    RoutineIsProcedure(p.w, c, f, v);
    var i, code, cdr := |p.s.words|, p.w.fixed[v.cons.index], Pointer(Cons(base, PROCEDURE));
    CellMade(p, code, cdr);
    var q := Made(p, code, cdr);
    ConstantGrows(p.w, q.w, CompileProcedure(c, f), v);
    EnvGrows(p.w, q.w, c, base, env, Free(Lambda(f)));
    IsRoutine(q.w, c, env, f, i, v);
  }

  /** A closure gets the stack below it as its environment. */
  lemma {:induction false} CloseTop(p: Point, c: Context, env: Env, f: Procedure, k: Code, d: Data, base: nat,
                                    low: nat)
    returns (q: Point)
    requires Holds(p) && HasCode(p.w, p.s.code.index, Code.Call(2, Symbol("$$close"), k)) && IsContinuation(k)
    requires IsTop(p, d, base, false, low) && HasConstant(p.w, CompileProcedure(c, f), p.s.words[p.s.stack.index])
    requires HasEnv(p.w, c, base, env, Free(Lambda(f)))
    requires Compilable(Lambda(f)) && Analyzed(NamesOf(c), Lambda(f))
    ensures Pushes(p, q, k, Closure(f, env), base, false, |p.s.words|) && q.st == p.st
  {
    hide IsData, HasPrimitive, HasEnv, CompileProcedure, Free, Compilable, Analyzed, CloseOf, Holds, Evolves,
         HasConstant, ExecuteOf, IsSimple, Depth.Height;
    var v, i, p1 := p.s.words[p.s.stack.index], |p.s.words|, p.(s := p.s.(stack := Cons(base, PAIR)));
    ClosesBySymbol(p);
    TopIsHigh(p, d, base, false, low);
    CallsSymbol(p, "$$close", CLOSE, 1, k);
    OnlyRoots(p, p1.s);
    ClosureMade(p1, c, env, f, v, base);
    ClosesTop(p, d, base, low, v, p.w.fixed[v.cons.index]);
    var p2 := Made(p1, p.w.fixed[v.cons.index], Pointer(Cons(base, PROCEDURE)));
    Pushed(p2, Closure(f, env), Pointer(Cons(i, 0)));
    q := p2.(s := PushOf(p2.s, Pointer(Cons(i, 0))).value);
    EvolvesTrans(p, p1, p2);
    EvolvesTrans(p, p2, q);
    LowerTop(q, Closure(f, env), base, |p2.s.words|, |p.s.words|);
  }

  lemma {:induction false} ClosesBySymbol(p: Point)
    requires Holds(p)
    ensures HasPrimitive(p.w, "$$close", CLOSE)
  {
  }

  lemma {:induction false} LowerTop(p: Point, d: Data, base: nat, high: nat, low: nat)
    requires IsTop(p, d, base, false, high) && low <= high
    ensures IsTop(p, d, base, false, low)
  {
  }
}
