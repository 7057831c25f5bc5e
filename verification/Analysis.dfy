/** The analysis of free variables changes no meaning: what it notes down matters to the code generator only. */
module Analysis {
  import opened Stores
  import opened Scheme
  import opened CodeGenerator
  import opened Compilation
  import opened Memories
  import opened Worlds
  import Booting
  import Loading
  import Machine
  import M = Marshalling
  import Programs
  import Vms
  import WholePrograms

  // ----- values without notes -----

  function EraseData(d: Data): Data {
    match d
    case Rib(a, b, tag) => Rib(EraseData(a), EraseData(b), tag)
    case Closure(p, env) => Closure(EraseProcedure(p), env)
    case _ => d
  }

  function EraseAll(ds: seq<Data>): (r: seq<Data>)
    ensures |r| == |ds| && forall i :: 0 <= i < |ds| ==> r[i] == EraseData(ds[i])
  {
    seq(|ds|, i requires 0 <= i < |ds| => EraseData(ds[i]))
  }

  function EraseOutcome(o: Outcome<Data>): Outcome<Data> {
    match o
    case Done(d, st) => Done(EraseData(d), EraseAll(st))
    case Wrong(e) => Wrong(e)
    case Undefined => Undefined
  }

  function EraseValues(o: Outcome<seq<Data>>): Outcome<seq<Data>> {
    match o
    case Done(ds, st) => Done(EraseAll(ds), EraseAll(st))
    case Wrong(e) => Wrong(e)
    case Undefined => Undefined
  }

  function EraseOperands(o: Outcome<(Data, seq<Data>)>): Outcome<(Data, seq<Data>)> {
    match o
    case Done((d, ds), st) => Done((EraseData(d), EraseAll(ds)), EraseAll(st))
    case Wrong(e) => Wrong(e)
    case Undefined => Undefined
  }

  function EraseApplication(o: Outcome<Application>): Outcome<Application> {
    match o
    case Done(Returned(d), st) => Done(Returned(EraseData(d)), EraseAll(st))
    case Done(Entered(body, env), st) => Done(Entered(EraseSequence(body), env), EraseAll(st))
    case Wrong(e) => Wrong(e)
    case Undefined => Undefined
  }

  lemma {:induction false} EraseAppend(a: seq<Data>, b: seq<Data>)
    ensures EraseAll(a + b) == EraseAll(a) + EraseAll(b)
  {
  }

  // ----- lists and calls -----

  lemma {:induction false} ListErased(values: seq<Data>)
    ensures EraseData(ListOf(values)) == ListOf(EraseAll(values))
  {
    if values != [] {
      ListErased(values[1..]);
      assert EraseAll(values)[1..] == EraseAll(values[1..]);
    }
  }

  lemma {:induction false} ItemsErased(d: Data)
    ensures IsList(EraseData(d)) <==> IsList(d)
    ensures IsList(d) ==> Items(EraseData(d)) == EraseAll(Items(d))
  {
    if d.Rib? {
      ItemsErased(d.cdr);
    }
  }

  lemma {:induction false} SpreadErased(values: seq<Data>, variadic: bool)
    ensures Spread(EraseAll(values), variadic) == EraseValues(Spread(values, variadic))
  {
    if variadic && values != [] {
      var n := |values| - 1;
      ItemsErased(values[n]);
      assert EraseAll(values)[..n] == EraseAll(values[..n]);
      if IsList(values[n]) {
        EraseAppend(values[..n], Items(values[n]));
      }
    }
  }

  lemma {:induction false} ParametersErased(a: Machine.Arity, values: seq<Data>)
    requires a.count <= |values|
    ensures ParameterValues(a, EraseAll(values)) == EraseAll(ParameterValues(a, values))
  {
    ListErased(values[a.count..]);
    assert EraseAll(values)[a.count..] == EraseAll(values[a.count..]);
    assert EraseAll(values)[..a.count] == EraseAll(values[..a.count]);
  }

  lemma {:induction false} EntryErased(p: Procedure, env: Env, values: seq<Data>, st: Locations)
    ensures EnterProcedure(EraseProcedure(p), env, EraseAll(values), EraseAll(st))
            == EraseApplication(EnterProcedure(p, env, values, st))
  {
    if Fits(|values|, ArityOf(p)) {
      ParametersErased(ArityOf(p), values);
      EraseAppend(st, ParameterValues(ArityOf(p), values));
    }
  }

  lemma {:induction false} ApplicationErased(d: Data, values: seq<Data>, variadic: bool, st: Locations)
    ensures ApplyTo(EraseData(d), EraseAll(values), variadic, EraseAll(st))
            == EraseApplication(ApplyTo(d, values, variadic, st))
  {
    SpreadErased(values, variadic);
    if d.Closure? && Spread(values, variadic).Done? {
      EntryErased(d.procedure, d.env, Spread(values, variadic).value, st);
    }
  }

  // ----- meanings -----

  /** Without the notes of the analysis an expression means the same, except that the closures among the values carry
      no notes. */
  lemma {:induction false} MeaningIgnoresNotes(depth: nat, e: Expr, env: Env, st: Locations)
    ensures Eval(depth, Erase(e), env, EraseAll(st)) == EraseOutcome(Eval(depth, e, env, st))
    decreases depth, e, 2
  {
    hide EraseAll, EvalCall;
    match e
    case Constant(_) =>
    case Variable(_) =>
    case Assign(x, e1) =>
      MeaningIgnoresNotes(depth, e1, env, st);
      var o := Eval(depth, e1, env, st);
      if o.Done? && x in env && env[x] < |o.store| {
        assert EraseAll(o.store)[env[x] := EraseData(o.value)] == EraseAll(o.store[env[x] := o.value]);
      }
    case If(a, b, c) =>
      MeaningIgnoresNotes(depth, a, env, st);
      var o := Eval(depth, a, env, st);
      if o.Done? {
        MeaningIgnoresNotes(depth, b, env, o.store);
        MeaningIgnoresNotes(depth, c, env, o.store);
      }
    case Begin(es) => SequenceIgnoresNotes(depth, es, env, st);
    case Let(bs) => BindingsIgnoreNotes(depth, bs, env, env, st);
    case Lambda(_) =>
    case Call(_, _) => CallIgnoresNotes(depth, e, env, st);
    case Apply(_, _) => CallIgnoresNotes(depth, e, env, st);
  }

  lemma {:induction false} SequenceIgnoresNotes(depth: nat, es: Sequence, env: Env, st: Locations)
    ensures EvalSequence(depth, EraseSequence(es), env, EraseAll(st)) == EraseOutcome(EvalSequence(depth, es, env, st))
    decreases depth, es
  {
    hide EraseAll, Eval;
    MeaningIgnoresNotes(depth, es.expr, env, st);
    var o := Eval(depth, es.expr, env, st);
    if es.Then? && o.Done? {
      SequenceIgnoresNotes(depth, es.rest, env, o.store);
    }
  }

  lemma {:induction false} ArgumentsIgnoreNotes(depth: nat, es: Arguments, env: Env, st: Locations)
    ensures EvalArguments(depth, EraseArguments(es), env, EraseAll(st))
            == EraseValues(EvalArguments(depth, es, env, st))
    decreases depth, es
  {
    hide Eval;
    if es.Argument? {
      MeaningIgnoresNotes(depth, es.expr, env, st);
      var o := Eval(depth, es.expr, env, st);
      if o.Done? {
        ArgumentsIgnoreNotes(depth, es.rest, env, o.store);
        var rest := EvalArguments(depth, es.rest, env, o.store);
        if rest.Done? {
          EraseAppend([o.value], rest.value);
          assert EraseAll([o.value]) == [EraseData(o.value)];
        }
      }
    }
  }

  lemma {:induction false} BindingsIgnoreNotes(depth: nat, bs: Bindings, env: Env, inner: Env, st: Locations)
    ensures EvalBindings(depth, EraseBindings(bs), env, inner, EraseAll(st))
            == EraseOutcome(EvalBindings(depth, bs, env, inner, st))
    decreases depth, bs
  {
    hide Eval;
    match bs
    case Body(e) => MeaningIgnoresNotes(depth, e, inner, st);
    case Bind(x, e, rest) =>
      MeaningIgnoresNotes(depth, e, env, st);
      var o := Eval(depth, e, env, st);
      if o.Done? {
        EraseAppend(o.store, [o.value]);
        assert EraseAll([o.value]) == [EraseData(o.value)];
        BindingsIgnoreNotes(depth, rest, env, inner[x := |o.store|], o.store + [o.value]);
      }
  }

  lemma {:induction false} OperandsIgnoreNotes(depth: nat, e: Expr, env: Env, st: Locations)
    requires e.Call? || e.Apply?
    ensures EvalOperands(depth, Erase(e), env, EraseAll(st)) == EraseOperands(EvalOperands(depth, e, env, st))
    decreases depth, e, 0
  {
    hide EraseAll, Eval, EvalArguments;
    if e.operator.Variable? {
      ArgumentsIgnoreNotes(depth, e.arguments, env, st);
    } else {
      MeaningIgnoresNotes(depth, e.operator, env, st);
      var o := Eval(depth, e.operator, env, st);
      if o.Done? {
        ArgumentsIgnoreNotes(depth, e.arguments, env, o.store);
      }
    }
  }

  lemma {:induction false} CallIgnoresNotes(depth: nat, e: Expr, env: Env, st: Locations)
    requires e.Call? || e.Apply?
    ensures EvalCall(depth, Erase(e), env, EraseAll(st)) == EraseOutcome(EvalCall(depth, e, env, st))
    decreases depth, e, 1
  {
    hide EraseAll, EvalOperands, ApplyTo;
    OperandsIgnoreNotes(depth, e, env, st);
    var o := EvalOperands(depth, e, env, st);
    if o.Done? {
      ApplicationErased(o.value.0, o.value.1, e.Apply?, o.store);
      var a := ApplyTo(o.value.0, o.value.1, e.Apply?, o.store);
      if a.Done? && a.value.Entered? && depth > 0 {
        SequenceIgnoresNotes(depth - 1, a.value.body, a.value.env, a.store);
      }
    }
  }

  /** The analysis changes no meaning. */
  lemma {:induction false} AnalysisKeepsMeaning(depth: nat, bound: set<Name>, e: Expr, env: Env, st: Locations)
    ensures EraseOutcome(Eval(depth, Analyze(bound, e), env, st)) == EraseOutcome(Eval(depth, e, env, st))
  {
    hide Eval, Erase, EraseAll;
    AnalysisOnlyNotes(bound, e);
    MeaningIgnoresNotes(depth, Analyze(bound, e), env, st);
    MeaningIgnoresNotes(depth, e, env, st);
  }

  /** No value has notes unless there is a closure in it. */
  lemma {:induction false} OnlyClosuresHaveNotes(d: Data)
    requires IsPlain(d)
    ensures EraseData(d) == d
  {
    if d.Rib? {
      OnlyClosuresHaveNotes(d.car);
      OnlyClosuresHaveNotes(d.cdr);
    }
  }

  predicate IsPlain(d: Data) {
    match d
    case Rib(a, b, _) => IsPlain(a) && IsPlain(b)
    case Closure(_, _) => false
    case _ => true
  }

  // ----- runs of analysed programs -----

  /** What the analysis guarantees to the code generator. */
  lemma {:induction false} AnalyzedIsReady(e: Expr)
    ensures Analyzed({}, Analyze({}, e)) && Free(Analyze({}, e)) == Free(e)
  {
    AnalysisIsSound({}, e, {});
  }

  /** The code of an analysed program, when it has been loaded, comes to the value or the error of the program as it
      was before the analysis. */
  lemma {:induction false} AnalyzedProgramRuns(depth: nat, e: Expr, env: Env, p: Point)
    returns (n: nat, q: Point, o: Outcome<Data>)
    requires Compilable(Analyze({}, e))
    requires Ready(p, map[], [], env, Free(e), Compile([], Analyze({}, e), Return), 0, Caller(p.w.nil, p.w.nil))
    requires Eval(depth, e, env, p.st) != Undefined
    ensures EraseOutcome(o) == EraseOutcome(Eval(depth, e, env, p.st))
    ensures Vms.Ends(p.s, n) && Programs.IsOutcome(o, |p.s.words|, Machine.StepsOf(p.s, n), q)
    ensures forall k :: 0 <= k < n ==> Programs.HasDepth(p.s, k, Programs.Bottom(p.s))
  {
    hide Eval, Compile, Ready, Analyze, Analyzed, Compilable, Programs.IsOutcome, Programs.HasDepth, Machine.StepsOf,
         EraseAll;
    AnalyzedIsReady(e);
    AnalysisKeepsMeaning(depth, {}, e, env, p.st);
    o := Eval(depth, Analyze({}, e), env, p.st);
    n, q := Programs.ProgramRuns(depth, Analyze({}, e), env, p);
  }

  /** A program before marshalling: the code of the analysed expression after naming the primitives. */
  ghost predicate IsCompiledFrom(p: M.Source, ids: map<Name, nat>, code: M.Code, e: Expr, globals: seq<Name>) {
    && M.IsSource(p) && M.CodeFits(p, |p.nops|, code)
    && Loading.Means(p, ids, code, Compile([], Analyze({}, e), Return))
    && (forall i :: 0 <= i < |Booting.PRIMITIVES| ==>
          Booting.PRIMITIVES[i].0 in ids && ids[Booting.PRIMITIVES[i].0] < |p.names|)
    && (forall x, y :: x in ids && y in ids && ids[x] == ids[y] ==> x == y)
    && Compilable(Analyze({}, e)) && WholePrograms.AreGlobals(globals, Free(e))
  }

  lemma {:induction false} CompiledFromIsCompiled(p: M.Source, ids: map<Name, nat>, code: M.Code, e: Expr,
                                                  globals: seq<Name>)
    requires IsCompiledFrom(p, ids, code, e, globals)
    ensures WholePrograms.IsCompiled(p, ids, code, Analyze({}, e), globals)
  {
    hide Compile, Analyze, Analyzed, Compilable, Loading.Means, M.IsSource, M.CodeFits, WholePrograms.AreGlobals;
    AnalyzedIsReady(e);
  }

  /** From an expression by way of the analysis, the code generator and bytecode to its value. */
  method RunExpression(p: M.Source, ids: map<Name, nat>, code: M.Code, ghost e: Expr, ghost globals: seq<Name>,
                       ghost depth: nat, words: array<Value>, gcAlways: bool)
    returns (r: Vms.Report, memory: Memory?, ghost o: Outcome<Data>)
    requires IsCompiledFrom(p, ids, code, e, globals) && WholePrograms.IsWritable(p, ids, code) && words.Length % 4 == 0
    requires Eval(depth, e, WholePrograms.EnvOf(globals), Initials(globals)) != Undefined
    modifies words
    ensures EraseOutcome(o) == EraseOutcome(Eval(depth, e, WholePrograms.EnvOf(globals), Initials(globals)))
    ensures match r
            case HeapExhausted =>
              if memory == null then words.Length < 8 else 2 * memory.live == memory.SpaceSize()
            case Error(error) => o == Wrong(error)
            case Success =>
              && memory != null && memory.Valid() && memory.heap == words && o.Done?
              && exists low, q :: Programs.IsOutcome(o, low, Machine.Run.Ok(memory.model), q)
  {
    hide Eval, Compile, Analyze, Analyzed, Compilable, Memory.Valid, Programs.IsOutcome, IsCompiledFrom,
         WholePrograms.IsCompiled, WholePrograms.EnvOf, WholePrograms.Initials, WholePrograms.IsWritable, EraseAll;
    CompiledFromIsCompiled(p, ids, code, e, globals);
    AnalysisKeepsMeaning(depth, {}, e, WholePrograms.EnvOf(globals), Initials(globals));
    o := Eval(depth, Analyze({}, e), WholePrograms.EnvOf(globals), Initials(globals));
    r, memory := WholePrograms.RunCompiled(p, ids, code, Analyze({}, e), globals, depth, words, gcAlways);
  }

  function Initials(globals: seq<Name>): Locations {
    WholePrograms.Initials(Booting.PRIMITIVES, globals)
  }
}
