/** Expanded Scheme expressions as the code generator of `compile.scm` takes them, what its analysis of free
    variables finds in them, and what they mean. */
module Scheme {
  import opened Stores
  import Machine

  type Name = string

  // The name that generated code gives to a computed operator.
  const OPERATOR: Name := "$procedure"

  datatype Literal = False | Null | Datum(value: Value)

  datatype Expr =
    | Constant(literal: Literal)
    | Variable(name: Name)
    | Assign(name: Name, expr: Expr)
    | If(test: Expr, then_: Expr, else_: Expr)
    | Begin(body: Sequence)
    | Let(bindings: Bindings)
    | Lambda(procedure: Procedure)
    | Call(operator: Expr, arguments: Arguments)
    | Apply(operator: Expr, arguments: Arguments)

  datatype Sequence = Last(expr: Expr) | Then(expr: Expr, rest: Sequence)

  datatype Arguments = NoMore | Argument(expr: Expr, rest: Arguments)

  /** The call of a `lambda` form: its parameters with their arguments, and its body. */
  datatype Bindings = Body(expr: Expr) | Bind(name: Name, init: Expr, rest: Bindings)

  /** `free` is what the analysis of free variables notes down; `names` ends with the rest parameter if there
      is one. */
  datatype Procedure = Procedure(free: set<Name>, names: seq<Name>, variadic: bool, body: Sequence)

  function ArityOf(p: Procedure): Machine.Arity {
    Machine.Arity(if p.variadic && p.names != [] then |p.names| - 1 else |p.names|, p.variadic && p.names != [])
  }

  function Count(a: Arguments): nat {
    match a
    case NoMore => 0
    case Argument(_, rest) => 1 + Count(rest)
  }

  function Named(names: seq<Name>): set<Name> {
    set x | x in names
  }

  // ----- free variables -----

  function Free(e: Expr): set<Name> {
    match e
    case Constant(_) => {}
    case Variable(x) => {x}
    case Assign(x, e1) => {x} + Free(e1)
    case If(a, b, c) => Free(a) + Free(b) + Free(c)
    case Begin(es) => FreeInSequence(es)
    case Let(bs) => FreeInBindings(bs)
    case Lambda(p) => FreeInSequence(p.body) - Named(p.names)
    case Call(f, es) => Free(f) + FreeInArguments(es)
    case Apply(f, es) => Free(f) + FreeInArguments(es)
  }

  function FreeInSequence(es: Sequence): set<Name> {
    match es
    case Last(e) => Free(e)
    case Then(e, rest) => Free(e) + FreeInSequence(rest)
  }

  function FreeInArguments(es: Arguments): set<Name> {
    match es
    case NoMore => {}
    case Argument(e, rest) => Free(e) + FreeInArguments(rest)
  }

  function FreeInBindings(bs: Bindings): set<Name>
    decreases bs, 1
  {
    FreeInInits(bs) + FreeInBody(bs)
  }

  function FreeInInits(bs: Bindings): set<Name>
    decreases bs, 0
  {
    match bs
    case Body(_) => {}
    case Bind(_, e, rest) => Free(e) + FreeInInits(rest)
  }

  function FreeInBody(bs: Bindings): set<Name>
    decreases bs, 0
  {
    match bs
    case Body(e) => Free(e)
    case Bind(x, _, rest) => FreeInBody(rest) - {x}
  }

  // ----- the analysis of free variables -----

  /** The symbols of an analysed expression among `bound`, whether shadowed or not. */
  function Find(bound: set<Name>, e: Expr): set<Name> {
    match e
    case Constant(_) => {}
    case Variable(x) => {x} * bound
    case Assign(x, e1) => {x} * bound + Find(bound, e1)
    case If(a, b, c) => Find(bound, a) + Find(bound, b) + Find(bound, c)
    case Begin(es) => FindInSequence(bound, es)
    case Let(bs) => FindInBindings(bound, bs)
    case Lambda(p) => p.free * bound
    case Call(f, es) => Find(bound, f) + FindInArguments(bound, es)
    case Apply(f, es) => Find(bound, f) + FindInArguments(bound, es)
  }

  function FindInSequence(bound: set<Name>, es: Sequence): set<Name> {
    match es
    case Last(e) => Find(bound, e)
    case Then(e, rest) => Find(bound, e) + FindInSequence(bound, rest)
  }

  function FindInArguments(bound: set<Name>, es: Arguments): set<Name> {
    match es
    case NoMore => {}
    case Argument(e, rest) => Find(bound, e) + FindInArguments(bound, rest)
  }

  function FindInBindings(bound: set<Name>, bs: Bindings): set<Name> {
    match bs
    case Body(e) => Find(bound, e)
    case Bind(_, e, rest) => Find(bound, e) + FindInBindings(bound, rest)
  }

  /** Notes down in every `lambda` which of the variables bound around it occur in it. */
  function Analyze(bound: set<Name>, e: Expr): Expr
    decreases e
  {
    match e
    case Constant(_) => e
    case Variable(_) => e
    case Assign(x, e1) => Assign(x, Analyze(bound, e1))
    case If(a, b, c) => If(Analyze(bound, a), Analyze(bound, b), Analyze(bound, c))
    case Begin(es) => Begin(AnalyzeSequence(bound, es))
    case Let(bs) => Let(AnalyzeBindings(bound, bound, bs))
    case Lambda(p) =>
      var body := AnalyzeSequence(Named(p.names) + bound, p.body);
      Lambda(p.(free := FindInSequence(bound, body), body := body))
    case Call(f, es) => Call(Analyze(bound, f), AnalyzeArguments(bound, es))
    case Apply(f, es) => Apply(Analyze(bound, f), AnalyzeArguments(bound, es))
  }

  function AnalyzeSequence(bound: set<Name>, es: Sequence): Sequence
    decreases es
  {
    match es
    case Last(e) => Last(Analyze(bound, e))
    case Then(e, rest) => Then(Analyze(bound, e), AnalyzeSequence(bound, rest))
  }

  function AnalyzeArguments(bound: set<Name>, es: Arguments): Arguments
    decreases es
  {
    match es
    case NoMore => NoMore
    case Argument(e, rest) => Argument(Analyze(bound, e), AnalyzeArguments(bound, rest))
  }

  // The body sees the parameters, the arguments do not.
  function AnalyzeBindings(bound: set<Name>, inner: set<Name>, bs: Bindings): Bindings
    decreases bs
  {
    match bs
    case Body(e) => Body(Analyze(inner, e))
    case Bind(x, e, rest) => Bind(x, Analyze(bound, e), AnalyzeBindings(bound, {x} + inner, rest))
  }

  /** Every `lambda` has noted down its free variables that are bound around it. */
  predicate Analyzed(bound: set<Name>, e: Expr)
    decreases e
  {
    match e
    case Constant(_) => true
    case Variable(_) => true
    case Assign(_, e1) => Analyzed(bound, e1)
    case If(a, b, c) => Analyzed(bound, a) && Analyzed(bound, b) && Analyzed(bound, c)
    case Begin(es) => SequenceAnalyzed(bound, es)
    case Let(bs) => BindingsAnalyzed(bound, bound, bs)
    case Lambda(p) =>
      Free(e) * bound <= p.free && SequenceAnalyzed(Named(p.names) + bound, p.body)
    case Call(f, es) => Analyzed(bound, f) && ArgumentsAnalyzed(bound, es)
    case Apply(f, es) => Analyzed(bound, f) && ArgumentsAnalyzed(bound, es)
  }

  predicate SequenceAnalyzed(bound: set<Name>, es: Sequence)
    decreases es
  {
    match es
    case Last(e) => Analyzed(bound, e)
    case Then(e, rest) => Analyzed(bound, e) && SequenceAnalyzed(bound, rest)
  }

  predicate ArgumentsAnalyzed(bound: set<Name>, es: Arguments)
    decreases es
  {
    match es
    case NoMore => true
    case Argument(e, rest) => Analyzed(bound, e) && ArgumentsAnalyzed(bound, rest)
  }

  predicate BindingsAnalyzed(bound: set<Name>, inner: set<Name>, bs: Bindings)
    decreases bs
  {
    match bs
    case Body(e) => Analyzed(inner, e)
    case Bind(x, e, rest) => Analyzed(bound, e) && BindingsAnalyzed(bound, {x} + inner, rest)
  }

  /** The analysis misses no variable that is free, whichever of the variables around are asked for, and so
      it leaves no closure without the environment it needs. */
  lemma {:induction false} AnalysisIsSound(bound: set<Name>, e: Expr, asked: set<Name>)
    requires asked <= bound
    ensures Analyzed(bound, Analyze(bound, e))
    ensures Free(Analyze(bound, e)) == Free(e)
    ensures Free(e) * asked <= Find(asked, Analyze(bound, e))
    decreases e
  {
    match e
    case Constant(_) =>
    case Variable(_) =>
    case Assign(_, e1) => AnalysisIsSound(bound, e1, asked);
    case If(a, b, c) =>
      AnalysisIsSound(bound, a, asked);
      AnalysisIsSound(bound, b, asked);
      AnalysisIsSound(bound, c, asked);
    case Begin(es) => SequenceAnalysisIsSound(bound, es, asked);
    case Let(bs) => BindingsAnalysisIsSound(bound, bound, bs, asked);
    case Lambda(p) =>
      SequenceAnalysisIsSound(Named(p.names) + bound, p.body, asked);
      SequenceAnalysisIsSound(Named(p.names) + bound, p.body, bound);
    case Call(f, es) =>
      AnalysisIsSound(bound, f, asked);
      ArgumentsAnalysisIsSound(bound, es, asked);
    case Apply(f, es) =>
      AnalysisIsSound(bound, f, asked);
      ArgumentsAnalysisIsSound(bound, es, asked);
  }

  lemma {:induction false} SequenceAnalysisIsSound(bound: set<Name>, es: Sequence, asked: set<Name>)
    requires asked <= bound
    ensures var es' := AnalyzeSequence(bound, es);
            && SequenceAnalyzed(bound, es') && FreeInSequence(es') == FreeInSequence(es)
            && FreeInSequence(es) * asked <= FindInSequence(asked, es')
    decreases es
  {
    AnalysisIsSound(bound, es.expr, asked);
    if es.Then? {
      SequenceAnalysisIsSound(bound, es.rest, asked);
    }
  }

  lemma {:induction false} ArgumentsAnalysisIsSound(bound: set<Name>, es: Arguments, asked: set<Name>)
    requires asked <= bound
    ensures var es' := AnalyzeArguments(bound, es);
            && ArgumentsAnalyzed(bound, es') && FreeInArguments(es') == FreeInArguments(es)
            && FreeInArguments(es) * asked <= FindInArguments(asked, es')
    decreases es
  {
    if es.Argument? {
      AnalysisIsSound(bound, es.expr, asked);
      ArgumentsAnalysisIsSound(bound, es.rest, asked);
    }
  }

  lemma {:induction false} BindingsAnalysisIsSound(bound: set<Name>, inner: set<Name>, bs: Bindings, asked: set<Name>)
    requires asked <= bound <= inner
    ensures var bs' := AnalyzeBindings(bound, inner, bs);
            && BindingsAnalyzed(bound, inner, bs')
            && FreeInInits(bs') == FreeInInits(bs) && FreeInBody(bs') == FreeInBody(bs)
            && FreeInBindings(bs) * asked <= FindInBindings(asked, bs')
    decreases bs
  {
    match bs
    case Body(e) => AnalysisIsSound(inner, e, asked);
    case Bind(x, e, rest) =>
      AnalysisIsSound(bound, e, asked);
      BindingsAnalysisIsSound(bound, {x} + inner, rest, asked);
  }

  // ----- the analysis changes nothing but its notes -----

  /** The expression without what is noted down in it. */
  function Erase(e: Expr): Expr {
    match e
    case Constant(_) => e
    case Variable(_) => e
    case Assign(x, e1) => Assign(x, Erase(e1))
    case If(a, b, c) => If(Erase(a), Erase(b), Erase(c))
    case Begin(es) => Begin(EraseSequence(es))
    case Let(bs) => Let(EraseBindings(bs))
    case Lambda(p) => Lambda(EraseProcedure(p))
    case Call(f, es) => Call(Erase(f), EraseArguments(es))
    case Apply(f, es) => Apply(Erase(f), EraseArguments(es))
  }

  function EraseProcedure(p: Procedure): Procedure {
    Procedure({}, p.names, p.variadic, EraseSequence(p.body))
  }

  function EraseSequence(es: Sequence): Sequence {
    match es
    case Last(e) => Last(Erase(e))
    case Then(e, rest) => Then(Erase(e), EraseSequence(rest))
  }

  function EraseArguments(es: Arguments): Arguments {
    match es
    case NoMore => NoMore
    case Argument(e, rest) => Argument(Erase(e), EraseArguments(rest))
  }

  function EraseBindings(bs: Bindings): Bindings {
    match bs
    case Body(e) => Body(Erase(e))
    case Bind(x, e, rest) => Bind(x, Erase(e), EraseBindings(rest))
  }

  /** The analysis changes nothing but what it notes down. */
  lemma {:induction false} AnalysisOnlyNotes(bound: set<Name>, e: Expr)
    ensures Erase(Analyze(bound, e)) == Erase(e)
    decreases e
  {
    match e
    case Constant(_) =>
    case Variable(_) =>
    case Assign(_, e1) => AnalysisOnlyNotes(bound, e1);
    case If(a, b, c) =>
      AnalysisOnlyNotes(bound, a);
      AnalysisOnlyNotes(bound, b);
      AnalysisOnlyNotes(bound, c);
    case Begin(es) => SequenceAnalysisOnlyNotes(bound, es);
    case Let(bs) => BindingsAnalysisOnlyNotes(bound, bound, bs);
    case Lambda(p) => SequenceAnalysisOnlyNotes(Named(p.names) + bound, p.body);
    case Call(f, es) =>
      AnalysisOnlyNotes(bound, f);
      ArgumentsAnalysisOnlyNotes(bound, es);
    case Apply(f, es) =>
      AnalysisOnlyNotes(bound, f);
      ArgumentsAnalysisOnlyNotes(bound, es);
  }

  lemma {:induction false} SequenceAnalysisOnlyNotes(bound: set<Name>, es: Sequence)
    ensures EraseSequence(AnalyzeSequence(bound, es)) == EraseSequence(es)
    decreases es
  {
    AnalysisOnlyNotes(bound, es.expr);
    if es.Then? {
      SequenceAnalysisOnlyNotes(bound, es.rest);
    }
  }

  lemma {:induction false} ArgumentsAnalysisOnlyNotes(bound: set<Name>, es: Arguments)
    ensures EraseArguments(AnalyzeArguments(bound, es)) == EraseArguments(es)
    decreases es
  {
    if es.Argument? {
      AnalysisOnlyNotes(bound, es.expr);
      ArgumentsAnalysisOnlyNotes(bound, es.rest);
    }
  }

  lemma {:induction false} BindingsAnalysisOnlyNotes(bound: set<Name>, inner: set<Name>, bs: Bindings)
    ensures EraseBindings(AnalyzeBindings(bound, inner, bs)) == EraseBindings(bs)
    decreases bs
  {
    match bs
    case Body(e) => AnalysisOnlyNotes(inner, e);
    case Bind(x, e, rest) =>
      AnalysisOnlyNotes(bound, e);
      BindingsAnalysisOnlyNotes(bound, {x} + inner, rest);
  }

  // ----- what the analysis notes down -----

  /** All names that occur as variables, shadowed or not. */
  function Names(e: Expr): set<Name> {
    match e
    case Constant(_) => {}
    case Variable(x) => {x}
    case Assign(x, e1) => {x} + Names(e1)
    case If(a, b, c) => Names(a) + Names(b) + Names(c)
    case Begin(es) => NamesInSequence(es)
    case Let(bs) => NamesInBindings(bs)
    case Lambda(p) => NamesInSequence(p.body)
    case Call(f, es) => Names(f) + NamesInArguments(es)
    case Apply(f, es) => Names(f) + NamesInArguments(es)
  }

  function NamesInSequence(es: Sequence): set<Name> {
    match es
    case Last(e) => Names(e)
    case Then(e, rest) => Names(e) + NamesInSequence(rest)
  }

  function NamesInArguments(es: Arguments): set<Name> {
    match es
    case NoMore => {}
    case Argument(e, rest) => Names(e) + NamesInArguments(rest)
  }

  function NamesInBindings(bs: Bindings): set<Name> {
    match bs
    case Body(e) => Names(e)
    case Bind(_, e, rest) => Names(e) + NamesInBindings(rest)
  }

  /** Every `lambda` has noted down exactly the names bound around it that occur in its body. */
  predicate Noted(bound: set<Name>, e: Expr)
    decreases e
  {
    match e
    case Constant(_) => true
    case Variable(_) => true
    case Assign(_, e1) => Noted(bound, e1)
    case If(a, b, c) => Noted(bound, a) && Noted(bound, b) && Noted(bound, c)
    case Begin(es) => SequenceNoted(bound, es)
    case Let(bs) => BindingsNoted(bound, bound, bs)
    case Lambda(p) =>
      p.free == NamesInSequence(p.body) * bound && SequenceNoted(Named(p.names) + bound, p.body)
    case Call(f, es) => Noted(bound, f) && ArgumentsNoted(bound, es)
    case Apply(f, es) => Noted(bound, f) && ArgumentsNoted(bound, es)
  }

  predicate SequenceNoted(bound: set<Name>, es: Sequence)
    decreases es
  {
    match es
    case Last(e) => Noted(bound, e)
    case Then(e, rest) => Noted(bound, e) && SequenceNoted(bound, rest)
  }

  predicate ArgumentsNoted(bound: set<Name>, es: Arguments)
    decreases es
  {
    match es
    case NoMore => true
    case Argument(e, rest) => Noted(bound, e) && ArgumentsNoted(bound, rest)
  }

  predicate BindingsNoted(bound: set<Name>, inner: set<Name>, bs: Bindings)
    decreases bs
  {
    match bs
    case Body(e) => Noted(inner, e)
    case Bind(x, e, rest) => Noted(bound, e) && BindingsNoted(bound, {x} + inner, rest)
  }

  /** What the analysis notes down is exact. */
  lemma {:induction false} AnalysisIsExact(bound: set<Name>, e: Expr, asked: set<Name>)
    requires asked <= bound
    ensures Noted(bound, Analyze(bound, e)) && Names(Analyze(bound, e)) == Names(e)
    ensures Find(asked, Analyze(bound, e)) == Names(e) * asked
    decreases e
  {
    match e
    case Constant(_) =>
    case Variable(_) =>
    case Assign(_, e1) => AnalysisIsExact(bound, e1, asked);
    case If(a, b, c) =>
      AnalysisIsExact(bound, a, asked);
      AnalysisIsExact(bound, b, asked);
      AnalysisIsExact(bound, c, asked);
    case Begin(es) => SequenceAnalysisIsExact(bound, es, asked);
    case Let(bs) => BindingsAnalysisIsExact(bound, bound, bs, asked);
    case Lambda(p) => SequenceAnalysisIsExact(Named(p.names) + bound, p.body, bound);
    case Call(f, es) =>
      AnalysisIsExact(bound, f, asked);
      ArgumentsAnalysisIsExact(bound, es, asked);
    case Apply(f, es) =>
      AnalysisIsExact(bound, f, asked);
      ArgumentsAnalysisIsExact(bound, es, asked);
  }

  lemma {:induction false} SequenceAnalysisIsExact(bound: set<Name>, es: Sequence, asked: set<Name>)
    requires asked <= bound
    ensures var es' := AnalyzeSequence(bound, es);
            && SequenceNoted(bound, es') && NamesInSequence(es') == NamesInSequence(es)
            && FindInSequence(asked, es') == NamesInSequence(es) * asked
    decreases es
  {
    AnalysisIsExact(bound, es.expr, asked);
    if es.Then? {
      SequenceAnalysisIsExact(bound, es.rest, asked);
    }
  }

  lemma {:induction false} ArgumentsAnalysisIsExact(bound: set<Name>, es: Arguments, asked: set<Name>)
    requires asked <= bound
    ensures var es' := AnalyzeArguments(bound, es);
            && ArgumentsNoted(bound, es') && NamesInArguments(es') == NamesInArguments(es)
            && FindInArguments(asked, es') == NamesInArguments(es) * asked
    decreases es
  {
    if es.Argument? {
      AnalysisIsExact(bound, es.expr, asked);
      ArgumentsAnalysisIsExact(bound, es.rest, asked);
    }
  }

  lemma {:induction false} BindingsAnalysisIsExact(bound: set<Name>, inner: set<Name>, bs: Bindings, asked: set<Name>)
    requires asked <= bound <= inner
    ensures var bs' := AnalyzeBindings(bound, inner, bs);
            && BindingsNoted(bound, inner, bs') && NamesInBindings(bs') == NamesInBindings(bs)
            && FindInBindings(asked, bs') == NamesInBindings(bs) * asked
    decreases bs
  {
    match bs
    case Body(e) => AnalysisIsExact(inner, e, asked);
    case Bind(x, e, rest) =>
      AnalysisIsExact(bound, e, asked);
      BindingsAnalysisIsExact(bound, {x} + inner, rest, asked);
  }

  // ----- meaning -----

  type Env = map<Name, nat>

  /** The values of programs. Variables have locations; ribs are never changed in this language. */
  datatype Data =
    | Plain(literal: Literal)
    | Rib(car: Data, cdr: Data, tag: nat)
    | Primitive(id: int)
    | Closure(procedure: Procedure, env: Env)

  type Locations = seq<Data>

  /** What an expression comes to. Nothing is said about undefined behaviour, or about a computation for
      which the depth of calls is too small. */
  datatype Outcome<+T> = Done(value: T, store: Locations) | Wrong(error: Machine.VmError) | Undefined {
    predicate IsFailure() {
      !Done?
    }

    function PropagateFailure<U>(): Outcome<U>
      requires !Done?
    {
      if Wrong? then Wrong(error) else Undefined
    }

    function Extract(): (T, Locations)
      requires Done?
    {
      (value, store)
    }
  }

  function ListOf(values: seq<Data>): Data {
    if values == [] then Plain(Null) else Rib(values[0], ListOf(values[1..]), Machine.PAIR)
  }

  predicate IsList(d: Data) {
    d == Plain(Null) || (d.Rib? && d.tag == Machine.PAIR && IsList(d.cdr))
  }

  function Items(d: Data): (items: seq<Data>)
    requires IsList(d)
    ensures ListOf(items) == d
  {
    if d.Rib? then [d.car] + Items(d.cdr) else []
  }

  function Look(env: Env, x: Name, st: Locations): Outcome<Data> {
    if x in env && env[x] < |st| then Done(st[env[x]], st) else Undefined
  }

  /** Gives names the locations from `l` on. */
  function BindNames(env: Env, names: seq<Name>, l: nat): Env
    decreases |names|
  {
    if names == [] then env else BindNames(env[names[0] := l], names[1..], l + 1)
  }

  /** The values of a procedure's parameters, a rest list included. */
  function ParameterValues(a: Machine.Arity, values: seq<Data>): seq<Data>
    requires a.count <= |values|
  {
    if a.variadic then values[..a.count] + [ListOf(values[a.count..])] else values
  }

  /** The arguments of a call, those of `apply` spread out. */
  function Spread(values: seq<Data>, variadic: bool): Outcome<seq<Data>> {
    if !variadic then Done(values, [])
    else
      var n := |values| - 1;
      if n >= 0 && IsList(values[n]) then Done(values[..n] + Items(values[n]), []) else Undefined
  }

  predicate Fits(n: nat, a: Machine.Arity) {
    if a.variadic then a.count <= n else a.count == n
  }

  /** What a call leads to: a value at once, or the body of a procedure and its environment. */
  datatype Application = Returned(value: Data) | Entered(body: Sequence, env: Env)

  function EnterProcedure(p: Procedure, env: Env, values: seq<Data>, st: Locations): Outcome<Application> {
    if Fits(|values|, ArityOf(p))
    then Done(Entered(p.body, BindNames(env, p.names, |st|)), st + ParameterValues(ArityOf(p), values))
    else Wrong(Machine.ArgumentCount)
  }

  /** The one primitive that programs of this model may call themselves makes ribs. */
  function Operate(id: int, values: seq<Data>, st: Locations): Outcome<Application> {
    if id == Machine.RIB && |values| == 3 && values[2].Plain? && values[2].literal.Datum?
       && values[2].literal.value.Number? && values[2].literal.value.n % 65536 != Machine.PROCEDURE
    then Done(Returned(Rib(values[0], values[1], values[2].literal.value.n % 65536)), st)
    else Undefined
  }

  /** A rib has the tag it is made with exactly if the tag has sixteen bits. Nothing is said about ribs that would be
      procedures. */
  lemma {:induction false} RibKeepsTagIff(car: Data, cdr: Data, tag: nat, st: Locations)
    ensures Operate(Machine.RIB, [car, cdr, Plain(Datum(Number(tag)))], st) == Done(Returned(Rib(car, cdr, tag)), st)
            <==> tag < 65536 && tag != Machine.PROCEDURE
  {
  }

  /** Values that are certain to be no procedures: the cells of ribs, of false and of null have other tags. A rib whose
      second field is a number has no tag. */
  predicate IsNoProcedure(d: Data) {
    match d
    case Plain(l) => !l.Datum?
    case Rib(_, cdr, tag) =>
      tag != Machine.PROCEDURE && !(cdr.Plain? && cdr.literal.Datum? && cdr.literal.value.Number?)
    case _ => false
  }

  function ApplyTo(p: Data, values: seq<Data>, variadic: bool, st: Locations): Outcome<Application> {
    match p
    case Closure(procedure, env) =>
      var (all, _) :- Spread(values, variadic);
      EnterProcedure(procedure, env, all, st)
    case Primitive(id) =>
      var (all, _) :- Spread(values, variadic);
      Operate(id, all, st)
    case _ => if IsNoProcedure(p) then Wrong(Machine.ProcedureExpected) else Undefined
  }

  function Truth(v: Data): bool {
    v != Plain(False)
  }

  function Eval(depth: nat, e: Expr, env: Env, st: Locations): Outcome<Data>
    decreases depth, e, 2
  {
    match e
    case Constant(l) => Done(Plain(l), st)
    case Variable(x) => Look(env, x, st)
    case Assign(x, e1) =>
      var (v, st1) :- Eval(depth, e1, env, st);
      if x in env && env[x] < |st1| then Done(Plain(False), st1[env[x] := v]) else Undefined
    case If(a, b, c) =>
      var (v, st1) :- Eval(depth, a, env, st);
      if Truth(v) then Eval(depth, b, env, st1) else Eval(depth, c, env, st1)
    case Begin(es) => EvalSequence(depth, es, env, st)
    case Let(bs) => EvalBindings(depth, bs, env, env, st)
    case Lambda(p) => Done(Closure(p, env), st)
    case Call(f, es) => EvalCall(depth, e, env, st)
    case Apply(f, es) => EvalCall(depth, e, env, st)
  }

  function EvalSequence(depth: nat, es: Sequence, env: Env, st: Locations): Outcome<Data>
    decreases depth, es
  {
    match es
    case Last(e) => Eval(depth, e, env, st)
    case Then(e, rest) =>
      var (_, st1) :- Eval(depth, e, env, st);
      EvalSequence(depth, rest, env, st1)
  }

  function EvalArguments(depth: nat, es: Arguments, env: Env, st: Locations): Outcome<seq<Data>>
    decreases depth, es
  {
    match es
    case NoMore => Done([], st)
    case Argument(e, rest) =>
      var (v, st1) :- Eval(depth, e, env, st);
      var (vs, st2) :- EvalArguments(depth, rest, env, st1);
      Done([v] + vs, st2)
  }

  function EvalBindings(depth: nat, bs: Bindings, env: Env, inner: Env, st: Locations): Outcome<Data>
    decreases depth, bs
  {
    match bs
    case Body(e) => Eval(depth, e, inner, st)
    case Bind(x, e, rest) =>
      var (v, st1) :- Eval(depth, e, env, st);
      EvalBindings(depth, rest, env, inner[x := |st1|], st1 + [v])
  }

  /** A named operator is looked up after the arguments, any other is computed before them. */
  function EvalOperands(depth: nat, e: Expr, env: Env, st: Locations): Outcome<(Data, seq<Data>)>
    requires e.Call? || e.Apply?
    decreases depth, e, 0
  {
    if e.operator.Variable? then
      var (vs, st1) :- EvalArguments(depth, e.arguments, env, st);
      var (p, _) :- Look(env, e.operator.name, st1);
      Done((p, vs), st1)
    else
      var (p, st1) :- Eval(depth, e.operator, env, st);
      var (vs, st2) :- EvalArguments(depth, e.arguments, env, st1);
      Done((p, vs), st2)
  }

  function EvalCall(depth: nat, e: Expr, env: Env, st: Locations): Outcome<Data>
    requires e.Call? || e.Apply?
    decreases depth, e, 1
  {
    var (f, st1) :- EvalOperands(depth, e, env, st);
    var (a, st2) :- ApplyTo(f.0, f.1, e.Apply?, st1);
    match a
    case Returned(v) => Done(v, st2)
    case Entered(body, inner) => if depth == 0 then Undefined else EvalSequence(depth - 1, body, inner, st2)
  }
}
