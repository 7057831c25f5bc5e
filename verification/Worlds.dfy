/** What a heap of module `Stores` holds while generated code runs: the code, the values of the program, its
    variables, environments and frames. */
module Worlds {
  import opened Stores
  import opened Scheme
  import opened CodeGenerator
  import Machine

  /** The words of a heap that no longer change, the cells of the locations of variables, the symbols, and the
      false and null values. */
  datatype World = World(fixed: map<nat, Value>, vars: seq<nat>, symbols: map<Name, nat>, no: nat, nil: nat)

  /** The words that link the stack of an activation and may still be overwritten. */
  type Links = map<nat, Value>

  /** What an activation relies on while it runs: its own links do not change either. */
  function View(w: World, links: Links): World {
    w.(fixed := w.fixed + links)
  }

  /** A point of a run: a heap, the values of the program's variables, and how the heap holds them. */
  datatype Point = Point(w: World, s: Store, st: Locations)

  ghost predicate Grows(w: World, w': World) {
    && (forall j :: j in w.fixed ==> j in w'.fixed && w'.fixed[j] == w.fixed[j])
    && w.vars <= w'.vars
    && w'.symbols == w.symbols && w'.no == w.no && w'.nil == w.nil
  }

  // ----- cells that are read only -----

  predicate IsFixed(w: World, i: nat) {
    i % 2 == 0 && i in w.fixed && i + 1 in w.fixed
  }

  // The cell after one whose `cdr` is fixed.
  predicate HasNext(w: World, i: nat) {
    i % 2 == 0 && i + 1 in w.fixed && w.fixed[i + 1].Pointer?
  }

  function Next(w: World, i: nat): nat
    requires HasNext(w, i)
  {
    w.fixed[i + 1].cons.index
  }

  // ----- code -----

  predicate HasLiteral(w: World, l: Literal, v: Value) {
    !v.IsNever() &&
    match l
    case False => v.Pointer? && v.cons.index == w.no
    case Null => v.Pointer? && v.cons.index == w.nil
    case Datum(d) => v.Same(d) && (v.Pointer? ==> v.cons.index != w.no && v.cons.index != w.nil)
  }

  predicate HasOperand(w: World, o: Operand, v: Value) {
    match o
    case Index(i) => v == Number(i)
    case Symbol(x) => v.Pointer? && x in w.symbols && v.cons.index == w.symbols[x]
  }

  predicate IsInstruction(w: World, i: nat, tag: nat) {
    IsFixed(w, i) && i != w.nil && w.fixed[i + 1].Pointer? && w.fixed[i + 1].cons.tag == tag
  }

  predicate HasCode(w: World, i: nat, k: Code)
    decreases k, 0
  {
    match k
    case Return => i == w.nil
    case Nop(next) => HasCode(w, i, next)
    case Push(c, next) =>
      IsInstruction(w, i, Machine.CONSTANT) && HasConstant(w, c, w.fixed[i]) && HasCode(w, Next(w, i), next)
    case Get(o, next) =>
      IsInstruction(w, i, Machine.GET) && HasOperand(w, o, w.fixed[i]) && HasCode(w, Next(w, i), next)
    case Set(o, next) =>
      IsInstruction(w, i, Machine.SET) && HasOperand(w, o, w.fixed[i]) && HasCode(w, Next(w, i), next)
    case Branch(b, next) =>
      && IsInstruction(w, i, Machine.IF) && HasCode(w, Next(w, i), next)
      && w.fixed[i].Pointer? && HasCode(w, w.fixed[i].cons.index, b)
    case Call(arity, o, next) =>
      IsInstruction(w, i, Machine.CALL + arity) && HasOperand(w, o, w.fixed[i]) && HasCode(w, Next(w, i), next)
  }

  predicate HasConstant(w: World, c: Constant, v: Value)
    decreases c, 0
  {
    match c
    case Quoted(l) => HasLiteral(w, l, v)
    case Routine(arity, body) =>
      && v.Pointer? && IsProcedure(w, v.cons.index)
      && Next(w, v.cons.index) == w.nil && HasRoutine(w, w.fixed[v.cons.index].cons.index, arity, body)
  }

  /** A procedure cell: its code and its environment. */
  predicate IsProcedure(w: World, i: nat) {
    && IsFixed(w, i) && i != w.no && i != w.nil
    && w.fixed[i].Pointer? && !w.fixed[i].IsNever()
    && w.fixed[i + 1].Pointer? && w.fixed[i + 1].cons.tag == Machine.PROCEDURE
  }

  // The code of a procedure starts with its arity.
  predicate HasRoutine(w: World, i: nat, arity: nat, body: Code)
    decreases body, 1
  {
    IsFixed(w, i) && w.fixed[i] == Number(arity) && w.fixed[i + 1].Pointer? && HasCode(w, Next(w, i), body)
  }

  // ----- environments -----

  // The cell `n` steps down a stack.
  function CellAt(w: World, i: nat, n: nat): int
    decreases n
  {
    if i % 2 != 0 then -1
    else if n == 0 then i
    else if HasNext(w, i) then CellAt(w, Next(w, i), n - 1) else -1
  }

  /** The cell of a variable: a slot of the stack, or a symbol. */
  function VariableCell(w: World, c: Context, stack: nat, x: Name): int {
    var i := CodeGenerator.IndexOf(c, x);
    if i >= 0 then CellAt(w, stack, i) else if x in w.symbols then w.symbols[x] else -1
  }

  ghost predicate HasEnv(w: World, c: Context, stack: nat, env: Env, names: set<Name>) {
    forall x :: x in names && x in env ==>
      env[x] < |w.vars| && VariableCell(w, c, stack, x) == w.vars[env[x]]
  }

  // ----- values -----

  ghost predicate IsData(w: World, d: Data, v: Value)
    decreases d
  {
    !v.IsNever() &&
    match d
    case Plain(l) => HasLiteral(w, l, v)
    case Primitive(id) =>
      v.Pointer? && IsPrimitive(w, v.cons.index, id)
    case Rib(a, b, tag) =>
      && v.Pointer? && var i := v.cons.index;
         && IsFixed(w, i) && i != w.no && i != w.nil
         && IsData(w, a, w.fixed[i]) && IsData(w, b, w.fixed[i + 1])
         && (w.fixed[i + 1].Pointer? ==> w.fixed[i + 1].cons.tag == tag)
    case Closure(p, env) =>
      v.Pointer? && IsClosure(w, v.cons.index, p, env)
  }

  predicate IsPrimitive(w: World, i: nat, id: int) {
    && IsFixed(w, i) && i != w.no && i != w.nil && w.fixed[i] == Number(id)
    && w.fixed[i + 1].Pointer? && w.fixed[i + 1].cons.tag == Machine.PROCEDURE
  }

  ghost predicate IsClosure(w: World, i: nat, p: Procedure, env: Env) {
    IsProcedure(w, i) && exists c :: ClosesOver(w, i, p, env, c)
  }

  /** The procedure's code was generated in a context that its environment fits. */
  ghost predicate ClosesOver(w: World, i: nat, p: Procedure, env: Env, c: Context)
    requires IsProcedure(w, i)
  {
    && HasRoutine(w, w.fixed[i].cons.index, CompileProcedure(c, p).arity, CompileProcedure(c, p).body)
    && HasEnv(w, c, Next(w, i), env, Free(Lambda(p)))
    && Compilable(Lambda(p)) && Analyzed(NamesOf(c), Lambda(p))
  }

  // ----- frames -----

  /** Where a procedure returns to. */
  datatype Caller = Caller(code: nat, stack: nat)

  /** The frame is `n` cells below the top of the stack; each cell is older than the one above it. */
  predicate HasFrame(w: World, i: nat, n: nat, caller: Caller, links: Links := map[])
    decreases n
  {
    && HasNext(View(w, links), i)
    && if View(w, links).fixed[i + 1].cons.tag == Machine.FRAME
       then n == 0 && IsFrame(w, i, caller)
       else n > 0 && Next(View(w, links), i) < i && HasFrame(w, Next(View(w, links), i), n - 1, caller, links)
  }

  predicate IsFrame(w: World, i: nat, caller: Caller) {
    i in w.fixed && w.fixed[i].Pointer? && w.fixed[i].cons.index < i && IsReturn(w, w.fixed[i].cons.index, caller)
  }

  // A continuation cell: the instruction that called, and the older stack to return to.
  predicate IsReturn(w: World, k: nat, caller: Caller) {
    && IsFixed(w, k) && w.fixed[k].Pointer? && HasNext(w, w.fixed[k].cons.index)
    && caller.code == Next(w, w.fixed[k].cons.index)
    && w.fixed[k + 1].Pointer? && caller.stack == w.fixed[k + 1].cons.index && caller.stack < k
  }

  // ----- points -----

  predicate FixedIn(w: World, words: seq<Value>) {
    forall j :: j in w.fixed ==> j < |words| && words[j] == w.fixed[j]
  }

  // The links of an activation are `cdr` fields.
  predicate LinksIn(links: Links, words: seq<Value>) {
    forall j :: j in links ==> j % 2 == 1 && j < |words| && words[j] == links[j]
  }

  predicate IsVariable(w: World, words: seq<Value>, i: nat) {
    i % 2 == 0 && i + 1 < |words| && i !in w.fixed && words[i + 1].Tag() != Machine.FRAME
  }

  predicate DistinctVars(w: World) {
    forall l, m :: 0 <= l < m < |w.vars| ==> w.vars[l] != w.vars[m]
  }

  ghost predicate HoldsVar(w: World, words: seq<Value>, st: Locations, l: nat)
    requires l < |w.vars| && l < |st|
  {
    IsVariable(w, words, w.vars[l]) && IsData(w, st[l], words[w.vars[l]])
  }

  ghost predicate Holds(p: Point) {
    && |p.s.words| % 2 == 0
    && FixedIn(p.w, p.s.words)
    && |p.w.vars| == |p.st| && DistinctVars(p.w)
    && (forall l :: 0 <= l < |p.st| ==> HoldsVar(p.w, p.s.words, p.st, l))
    && p.s.no.index == p.w.no && IsFixed(p.w, p.w.no)
    && p.w.nil % 2 == 0 && p.w.nil < |p.s.words| && p.w.nil != p.w.no
    && p.w.fixed[p.w.no].Pointer? && p.w.fixed[p.w.no].cons.index == p.w.nil
    && IsOther(p.w, p.w.no) && IsOther(p.w, p.w.nil)
    && HasPrimitive(p.w, "$$close", Machine.CLOSE) && HasPrimitive(p.w, "$$unbind", Machine.UNBIND)
  }

  /** A cell that is no procedure. */
  predicate IsOther(w: World, i: nat) {
    IsFixed(w, i) && w.fixed[i + 1].Pointer? && w.fixed[i + 1].cons.tag != Machine.PROCEDURE
  }

  /** Generated code relies on two primitives by name. */
  predicate HasPrimitive(w: World, x: Name, id: int) {
    && x in w.symbols && var i := w.symbols[x];
       i % 2 == 0 && i in w.fixed && w.fixed[i].Pointer? && IsPrimitive(w, w.fixed[i].cons.index, id)
  }

  // ----- growing -----

  /** From `p` to `q` only cells of variables and new cells have changed, and of the older words only links
      in `own` have become part of what no longer changes. */
  ghost predicate Evolves(p: Point, q: Point, own: set<nat> := {}) {
    && Grows(p.w, q.w)
    && |p.s.words| <= |q.s.words|
    && (forall j :: 0 <= j < |p.s.words| && j !in p.w.vars ==> q.s.words[j] == p.s.words[j])
    && (forall l :: |p.w.vars| <= l < |q.w.vars| ==> q.w.vars[l] >= |p.s.words|)
    && (forall j :: j in q.w.fixed && j !in p.w.fixed ==> j >= |p.s.words| || j in own)
    && q.s.no == p.s.no
  }

  lemma {:induction false} EvolvesRefl(p: Point)
    ensures Evolves(p, p)
  {
  }

  lemma {:induction false} EvolvesTrans(p: Point, q: Point, r: Point, own: set<nat> := {}, own': set<nat> := {})
    requires Evolves(p, q, own) && Evolves(q, r, own')
    requires forall j :: j in own' ==> j in own || j >= |p.s.words|
    ensures Evolves(p, r, own)
  {
    forall j | 0 <= j < |p.s.words| && j !in p.w.vars ensures r.s.words[j] == p.s.words[j] {
      if j in q.w.vars {
        assert false;
      }
    }
  }

  lemma {:induction false} CodeGrows(w: World, w': World, i: nat, k: Code)
    requires Grows(w, w') && HasCode(w, i, k)
    ensures HasCode(w', i, k)
    decreases k
  {
    match k
    case Return =>
    case Nop(next) => CodeGrows(w, w', i, next);
    case Push(c, next) =>
      ConstantGrows(w, w', c, w.fixed[i]);
      CodeGrows(w, w', Next(w, i), next);
    case Get(o, next) => CodeGrows(w, w', Next(w, i), next);
    case Set(o, next) => CodeGrows(w, w', Next(w, i), next);
    case Branch(b, next) =>
      CodeGrows(w, w', Next(w, i), next);
      CodeGrows(w, w', w.fixed[i].cons.index, b);
    case Call(_, o, next) => CodeGrows(w, w', Next(w, i), next);
  }

  lemma {:induction false} ConstantGrows(w: World, w': World, c: Constant, v: Value)
    requires Grows(w, w') && HasConstant(w, c, v)
    ensures HasConstant(w', c, v)
    decreases c
  {
    if c.Routine? {
      var i := w.fixed[v.cons.index].cons.index;
      CodeGrows(w, w', Next(w, i), c.body);
    }
  }

  lemma {:induction false} CellGrows(w: World, w': World, i: nat, n: nat)
    requires Grows(w, w') && CellAt(w, i, n) >= 0
    ensures CellAt(w', i, n) == CellAt(w, i, n)
    decreases n
  {
    if n > 0 {
      CellGrows(w, w', Next(w, i), n - 1);
    }
  }

  lemma {:induction false} FrameGrows(w: World, w': World, i: nat, n: nat, caller: Caller, links: Links := map[])
    requires Grows(w, w') && HasFrame(w, i, n, caller, links)
    ensures HasFrame(w', i, n, caller, links)
    decreases n
  {
    if n > 0 {
      FrameGrows(w, w', Next(View(w, links), i), n - 1, caller, links);
    }
  }

  /** More links do no harm to a frame. */
  lemma {:induction false} FrameLinked(w: World, i: nat, n: nat, caller: Caller, links: Links, more: Links)
    requires HasFrame(w, i, n, caller, links)
    requires forall j :: j in links ==> j in more && more[j] == links[j]
    requires forall j :: j in more && j in w.fixed ==> more[j] == w.fixed[j]
    ensures HasFrame(w, i, n, caller, more)
    decreases n
  {
    if n > 0 {
      FrameLinked(w, Next(View(w, links), i), n - 1, caller, links, more);
    }
  }

  lemma {:induction false} ViewGrows(w: World, w': World, links: Links)
    requires Grows(w, w')
    ensures Grows(View(w, links), View(w', links))
  {
  }

  lemma {:induction false} NoLinks(w: World)
    ensures View(w, map[]) == w
  {
    assert w.fixed + map[] == w.fixed;
  }

  lemma {:induction false} EnvGrows(w: World, w': World, c: Context, stack: nat, env: Env, names: set<Name>)
    requires Grows(w, w') && HasEnv(w, c, stack, env, names)
    ensures HasEnv(w', c, stack, env, names)
  {
    forall x | x in names && x in env ensures VariableCell(w', c, stack, x) == VariableCell(w, c, stack, x) {
      var i := IndexOf(c, x);
      if i >= 0 {
        CellGrows(w, w', stack, i);
      }
    }
  }

  lemma {:induction false} DataGrows(w: World, w': World, d: Data, v: Value)
    requires Grows(w, w') && IsData(w, d, v)
    ensures IsData(w', d, v)
    decreases d
  {
    hide HasEnv, HasCode;
    match d
    case Plain(_) =>
    case Primitive(_) =>
    case Rib(a, b, _) =>
      DataGrows(w, w', a, w.fixed[v.cons.index]);
      DataGrows(w, w', b, w.fixed[v.cons.index + 1]);
    case Closure(p, env) =>
      var i := v.cons.index;
      var c :| ClosesOver(w, i, p, env, c);
      CodeGrows(w, w', Next(w, w.fixed[i].cons.index), CompileProcedure(c, p).body);
      EnvGrows(w, w', c, Next(w, i), env, Free(Lambda(p)));
      assert ClosesOver(w', i, p, env, c);
  }

  // ----- what changes a point -----

  /** Allocation keeps a point. */
  lemma {:induction false} Allocated(p: Point, s': Store)
    requires Holds(p) && p.s.words <= s'.words && |s'.words| % 2 == 0 && s'.no == p.s.no
    ensures Holds(p.(s := s')) && Evolves(p, p.(s := s'))
  {
    hide IsData, HasPrimitive, IsFixed;
    forall l | 0 <= l < |p.st| ensures HoldsVar(p.w, s'.words, p.st, l) {
      assert HoldsVar(p.w, p.s.words, p.st, l);
    }
  }

  lemma {:induction false} OnlyRoots(p: Point, s: Store)
    requires Holds(p) && s.words == p.s.words && s.no == p.s.no
    ensures Holds(p.(s := s)) && Evolves(p, p.(s := s))
  {
    Allocated(p, s);
  }

  function Fix(p: Point, j: nat): Point
    requires j < |p.s.words|
  {
    p.(w := p.w.(fixed := p.w.fixed[j := p.s.words[j]]))
  }

  /** A word that is not the value of a variable may be fixed. */
  lemma {:induction false} Fixed(p: Point, j: nat)
    requires Holds(p) && j < |p.s.words| && j !in p.w.vars
    ensures Holds(Fix(p, j)) && Grows(p.w, Fix(p, j).w)
  {
    hide IsData;
    var q := Fix(p, j);
    forall l | 0 <= l < |p.st| ensures HoldsVar(q.w, q.s.words, q.st, l) {
      assert HoldsVar(p.w, p.s.words, p.st, l);
      DataGrows(p.w, q.w, p.st[l], p.s.words[p.w.vars[l]]);
    }
  }

  /** A point whose links no longer change. */
  function Linked(p: Point, links: Links): Point {
    p.(w := View(p.w, links))
  }

  lemma {:induction false} LinksAgree(p: Point, links: Links)
    requires Holds(p) && LinksIn(links, p.s.words)
    ensures Grows(p.w, View(p.w, links)) && FixedIn(View(p.w, links), p.s.words)
    ensures forall j :: j in p.w.fixed ==> View(p.w, links).fixed[j] == p.w.fixed[j]
  {
  }

  lemma {:induction false} Linking(p: Point, links: Links)
    requires Holds(p) && LinksIn(links, p.s.words)
    ensures Holds(Linked(p, links)) && Evolves(p, Linked(p, links), links.Keys)
  {
    hide IsData, HasPrimitive;
    LinksAgree(p, links);
    var q := Linked(p, links);
    forall l | 0 <= l < |p.st| ensures HoldsVar(q.w, q.s.words, q.st, l) {
      assert HoldsVar(p.w, p.s.words, p.st, l);
      DataGrows(p.w, q.w, p.st[l], p.s.words[p.w.vars[l]]);
    }
    PrimitiveGrows(p.w, q.w, "$$close", Machine.CLOSE);
    PrimitiveGrows(p.w, q.w, "$$unbind", Machine.UNBIND);
  }

  lemma {:induction false} PrimitiveGrows(w: World, w': World, x: Name, id: int)
    requires Grows(w, w') && HasPrimitive(w, x, id)
    ensures HasPrimitive(w', x, id)
  {
  }

  lemma {:induction false} VarIsEven(p: Point, j: nat)
    requires Holds(p) && j % 2 != 0
    ensures j !in p.w.vars
  {
    hide IsData;
    forall l | 0 <= l < |p.w.vars| ensures p.w.vars[l] != j {
      assert HoldsVar(p.w, p.s.words, p.st, l);
    }
  }

  /** Links stay in place, since they are not variables. */
  lemma {:induction false} LinksStay(p: Point, q: Point, links: Links, own: set<nat> := {})
    requires Holds(p) && LinksIn(links, p.s.words) && Evolves(p, q, own)
    ensures LinksIn(links, q.s.words)
  {
    hide Holds;
    forall j | j in links ensures q.s.words[j] == links[j] {
      VarIsEven(p, j);
    }
  }

  function AddVar(p: Point, t: nat, d: Data): Point {
    p.(w := p.w.(vars := p.w.vars + [t]), st := p.st + [d])
  }

  /** A cell that holds a value may become a variable. */
  lemma {:induction false} VarAdded(p: Point, t: nat, d: Data)
    requires Holds(p) && IsVariable(p.w, p.s.words, t) && t !in p.w.vars && IsData(p.w, d, p.s.words[t])
    ensures Holds(AddVar(p, t, d)) && Grows(p.w, AddVar(p, t, d).w)
  {
    hide IsData;
    var q := AddVar(p, t, d);
    forall l | 0 <= l < |q.st| ensures HoldsVar(q.w, q.s.words, q.st, l) {
      DataGrows(p.w, q.w, q.st[l], p.s.words[q.w.vars[l]]) by {
        assert l < |p.st| ==> HoldsVar(p.w, p.s.words, p.st, l);
      }
      assert l < |p.st| ==> HoldsVar(p.w, p.s.words, p.st, l);
    }
  }

  function Assigned(p: Point, l: nat, d: Data, v: Value): Point
    requires l < |p.st| && l < |p.w.vars| && p.w.vars[l] < |p.s.words|
  {
    p.(s := p.s.(words := p.s.words[p.w.vars[l] := v]), st := p.st[l := d])
  }

  lemma {:induction false} VarIsThere(p: Point, l: nat)
    requires Holds(p) && l < |p.st|
    ensures IsVariable(p.w, p.s.words, p.w.vars[l]) && IsData(p.w, p.st[l], p.s.words[p.w.vars[l]])
  {
    assert HoldsVar(p.w, p.s.words, p.st, l);
  }

  lemma {:induction false} VarAssigned(p: Point, l: nat, d: Data, v: Value)
    requires Holds(p) && l < |p.st| && IsData(p.w, d, v)
    ensures p.w.vars[l] < |p.s.words|
    ensures Holds(Assigned(p, l, d, v)) && Evolves(p, Assigned(p, l, d, v))
  {
    hide IsData;
    assert HoldsVar(p.w, p.s.words, p.st, l);
    var q := Assigned(p, l, d, v);
    forall m | 0 <= m < |q.st| ensures HoldsVar(q.w, q.s.words, q.st, m) {
      assert HoldsVar(p.w, p.s.words, p.st, m);
    }
  }
}
