/** Whole programs: generated code run to its end by the virtual machine, and a program that goes wrong. */
module Programs {
  import opened Stores
  import opened Scheme
  import opened CodeGenerator
  import opened Machine
  import opened Worlds
  import opened Execution
  import opened Compilation
  import opened Memories
  import Vms
  import Depth

  /** The code of a program is loaded, its globals are symbols, and a frame leads to the end of the run. */
  ghost predicate IsLoaded(p: Point, e: Expr, env: Env) {
    && Analyzed({}, e) && Ready(p, map[], [], env, Free(e), Compile([], e, Return), 0, Caller(p.w.nil, p.w.nil))
  }

  /** Initialization makes the frame that leads to the end of the run. */
  lemma {:induction false} FirstFrameEndsRun(w: World, s: Store, program: Cons, s': Store)
    requires InitializeOf(s, program) == Run.Ok(s') && |s.words| % 2 == 0
    requires FixedIn(w, s'.words) && forall j: nat :: |s.words| <= j < |s'.words| ==> j in w.fixed
    requires NullOf(s').Ok? && NullOf(s').value.index == w.nil && s.words <= s'.words && w.nil < |s.words|
    ensures HasFrame(w, s'.stack.index, 0, Caller(w.nil, w.nil))
  {
    var i := |s.words|;
    assert |s'.words| == i + 6 && s'.stack.index == i + 4;
    assert w.fixed[i + 4] == Pointer(Cons(i + 2, 0)) && w.fixed[i + 2] == Pointer(Cons(i, 0));
    assert IsReturn(w, i + 2, Caller(w.nil, w.nil));
    NoLinks(w);
  }

  /** The run is over, with the outcome of the program. */
  ghost predicate IsOutcome(o: Outcome<Data>, low: nat, r: Run<Store>, q: Point) {
    match o
    case Done(d, st) => r == Run.Ok(q.s) && q.st == st && Holds(q) && IsTop(q, d, q.w.nil, false, low)
    case Wrong(e) => r.Failed? && r.error == e
    case Undefined => true
  }

  /** The continuation of the first frame. */
  function Bottom(s: Store): nat {
    if IsCell(s, s.stack) && Car(s, s.stack).Pointer? then Car(s, s.stack).cons.index else 0
  }

  /** So many returns lead to the first frame as the run has made non-tail calls of closures and not yet returned
      from them. */
  ghost predicate HasDepth(s: Store, n: nat, bottom: nat) {
    && StepsOf(s, n).Ok?
    && Depth.Returns(StepsOf(s, n).value.words, StepsOf(s, n).value.stack.index, bottom)
       == Depth.CallsLessReturns(s, n)
  }

  lemma {:induction false} StartsDeep(p: Point, links: Links, caller: Caller)
    requires Holds(p) && LinksIn(links, p.s.words) && HasFrame(p.w, p.s.stack.index, 0, caller, links)
    ensures Depth.Deep(p.s, Depth.Height(p.s.words, p.s.stack.index), 0, Bottom(p.s))
  {
    hide IsData, HasPrimitive;
    LinksAgree(p, links);
    var i := p.s.stack.index;
    assert Depth.IsFrame(p.s.words, i) && Depth.Frame(p.s.words, i) == i;
  }

  lemma {:induction false} BehavingDepth(s: Store, n: nat, bottom: nat)
    requires Depth.Deep(s, Depth.Height(s.words, s.stack.index), 0, bottom)
    requires Behaves(s, n) && Depth.CallsLessReturns(s, n) >= 0
    ensures HasDepth(s, n, bottom)
  {
    hide StepsOf, Depth.CallsLessReturns, Depth.IsOrderly;
    Depth.RunDepth(s, n, 0, bottom);
  }

  lemma {:induction false} DepthBefore(s: Store, n: nat, k: nat, bottom: nat)
    requires Depth.Deep(s, Depth.Height(s.words, s.stack.index), 0, bottom) && Behaves(s, n) && k < n
    ensures HasDepth(s, k, bottom)
  {
    hide Depth.Deep, StepsOf, Depth.CallsLessReturns, Depth.IsOrderly, HasDepth;
    assert Depth.IsOrderlyAt(s, k) && Depth.CallsLessReturns(s, k) >= 0;
    BehavingDepth(s, k, bottom);
  }

  /** A program whose meaning is defined comes to its end with its value on the stack, or with its error. Until
      then the chain of continuations is as long as there are calls to return from; tail calls do not lengthen it. */
  lemma {:induction false} ProgramRuns(depth: nat, e: Expr, env: Env, p: Point) returns (n: nat, q: Point)
    requires Compilable(e) && IsLoaded(p, e, env) && Eval(depth, e, env, p.st) != Undefined
    ensures Vms.Ends(p.s, n)
    ensures IsOutcome(Eval(depth, e, env, p.st), |p.s.words|, StepsOf(p.s, n), q)
    ensures forall k :: 0 <= k < n ==> HasDepth(p.s, k, Bottom(p.s))
  {
    hide IsData, Holds, StepsOf, Compile, Ready, Compilable, Analyzed, HasFrame, Depth.Deep, Behaves, HasDepth,
         Depth.CallsLessReturns, LinksIn;
    assert NamesOf([]) == {};
    var start, o := Caller(p.w.nil, p.w.nil), Eval(depth, e, env, p.st);
    n, q := CompileRuns(depth, e, env, [], Return, p, map[], 0, start);
    ReadyIs(p, map[], [], env, Free(e), Compile([], e, Return), 0, start);
    StartsDeep(p, map[], start);
    if o.Done? {
      NullIsNil(q);
    } else {
      BehavingDepth(p.s, n - 1, Bottom(p.s));
    }
    forall k | 0 <= k < n ensures HasDepth(p.s, k, Bottom(p.s)) {
      if o.Done? || k < n - 1 {
        DepthBefore(p.s, if o.Done? then n else n - 1, k, Bottom(p.s));
      }
    }
  }

  /** However often garbage is collected on the way, a program ends with its value, or with its error, or with
      a heap that is full of live cells. */
  method RunProgram(m: Memory, ghost depth: nat, ghost e: Expr, ghost env: Env, ghost p: Point)
    returns (r: Vms.Report, ghost q: Point)
    requires m.Valid() && m.model == p.s
    requires Compilable(e) && IsLoaded(p, e, env) && Eval(depth, e, env, p.st) != Undefined
    modifies m, m.heap
    ensures match r
            case HeapExhausted => 2 * m.live == m.SpaceSize()
            case Error(error) => Eval(depth, e, env, p.st) == Wrong(error)
            case Success =>
              && m.Valid() && Eval(depth, e, env, p.st).Done?
              && IsOutcome(Eval(depth, e, env, p.st), |p.s.words|, Run.Ok(m.model), q)
  {
    hide IsData, Holds, StepsOf, Compile, Compilable, Analyzed, Eval, Memory.Valid, IsTop;
    ghost var n;
    n, q := ProgramRuns(depth, e, env, p);
    r := Vms.RunToEnd(m, n);
  }
}
