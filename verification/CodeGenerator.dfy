/** The code generator of `compile.scm`: code in continuation-passing style with stack slots for variables. */
module CodeGenerator {
  import opened Scheme
  import Machine

  datatype Operand = Index(index: nat) | Symbol(name: Name)

  datatype Constant = Quoted(literal: Literal) | Routine(arity: nat, body: Code)

  /** Instructions, each with what follows it. A nop only marks code that is shared. */
  datatype Code =
    | Return
    | Push(constant: Constant, next: Code)
    | Get(operand: Operand, next: Code)
    | Set(operand: Operand, next: Code)
    | Branch(then_: Code, next: Code)
    | Call(arity: nat, operand: Operand, next: Code)
    | Nop(next: Code)

  // A slot that no variable names, such as one of a frame or of a temporary value, has no name.
  datatype Slot = Hidden | Local(name: Name)

  type Context = seq<Slot>

  function IndexOf(c: Context, x: Name): (r: int)
    ensures -1 <= r < |c|
  {
    if c == [] then -1
    else if c[0] == Local(x) then 0
    else if IndexOf(c[1..], x) == -1 then -1 else 1 + IndexOf(c[1..], x)
  }

  // A variable that is not in the context is global.
  function Resolve(c: Context, x: Name): Operand {
    if IndexOf(c, x) == -1 then Symbol(x) else Index(IndexOf(c, x))
  }

  predicate IsDrop(k: Code) {
    k.Set? && k.operand == Index(0)
  }

  // A "drop" instruction is skipped with the value it drops.
  function CompileUnspecified(k: Code): Code {
    if IsDrop(k) then k.next else Push(Quoted(False), k)
  }

  function CompileDrop(k: Code): Code {
    if k.Return? then k else Set(Index(0), k)
  }

  function CompileUnbind(k: Code): Code {
    if k.Return? then k else Code.Call(4, Symbol("$$unbind"), k)
  }

  function CompileUnsafeUnbind(k: Code): Code {
    if k.Return? then k else Set(Index(1), k)
  }

  /** The names of a procedure's parameters from the top of its stack down, and the slot of its frame. */
  function FrameContext(names: seq<Name>): Context {
    if names == [] then [Hidden]
    else [Local(names[|names| - 1])] + FrameContext(names[..|names| - 1])
  }

  function Compile(c: Context, e: Expr, k: Code): Code
    decreases e, 1
  {
    match e
    case Constant(l) => Push(Quoted(l), k)
    case Variable(x) => Get(Resolve(c, x), k)
    case Assign(x, e1) => Compile(c, e1, Set(Resolve([Hidden] + c, x), CompileUnspecified(k)))
    case If(a, b, d) =>
      var k1 := if k.Return? then k else Nop(k);
      Compile(c, a, Branch(Compile(c, b, k1), Compile(c, d, k1)))
    case Begin(es) => CompileSequence(c, es, k)
    case Let(bs) => CompileLet(c, c, bs, k)
    case Lambda(p) =>
      Push(CompileProcedure(c, p), if p.free == {} then k else Code.Call(2, Symbol("$$close"), k))
    case Call(_, _) => CompileCall(c, e, k)
    case Apply(_, _) => CompileCall(c, e, k)
  }

  function CompileProcedure(c: Context, p: Procedure): Constant
    decreases p
  {
    Routine(Machine.BuildArity(ArityOf(p)), CompileSequence(FrameContext(p.names) + c, p.body, Return))
  }

  function CompileSequence(c: Context, es: Sequence, k: Code): Code
    decreases es
  {
    match es
    case Last(e) => Compile(c, e, k)
    case Then(e, rest) => Compile(c, e, CompileDrop(CompileSequence(c, rest, k)))
  }

  /** The arguments of a `let` form are compiled in `c`, where the values below them have no names, and its
      body in `inner`. */
  function CompileLet(c: Context, inner: Context, bs: Bindings, k: Code): Code
    decreases bs
  {
    match bs
    case Body(e) => Compile(inner, e, k)
    case Bind(x, e, rest) =>
      Compile(c, e, CompileLet([Hidden] + c, [Local(x)] + inner, rest, CompileUnbind(k)))
  }

  function CompileArguments(c: Context, f: Name, es: Arguments, arity: nat, k: Code): Code
    decreases es
  {
    match es
    case NoMore => Code.Call(arity, Resolve(c, f), k)
    case Argument(e, rest) => Compile(c, e, CompileArguments([Hidden] + c, f, rest, arity, k))
  }

  function CallArity(e: Expr): Machine.Arity
    requires e.Call? || e.Apply?
  {
    var n := Count(e.arguments);
    Machine.Arity(if e.Apply? && n > 0 then n - 1 else n, e.Apply?)
  }

  function CompileCall(c: Context, e: Expr, k: Code): Code
    requires e.Call? || e.Apply?
    decreases e, 0
  {
    var arity := Machine.BuildArity(CallArity(e));
    if e.operator.Variable? then CompileArguments(c, e.operator.name, e.arguments, arity, k)
    else
      Compile(c, e.operator,
              CompileArguments([Local(OPERATOR)] + c, OPERATOR, e.arguments, arity, CompileUnsafeUnbind(k)))
  }

  // ----- the expressions that the generated code is right for -----

  // The names of variables in a context; the name of an operator is not one.
  function NamesOf(c: Context): set<Name> {
    set i | 0 <= i < |c| && c[i].Local? && c[i].name != OPERATOR :: c[i].name
  }

  /** Computing the expression itself, and not what it calls, may make a closure, which keeps the stack below. */
  predicate MakesClosure(e: Expr) {
    match e
    case Constant(_) => false
    case Variable(_) => false
    case Assign(_, e1) => MakesClosure(e1)
    case If(a, b, c) => MakesClosure(a) || MakesClosure(b) || MakesClosure(c)
    case Begin(es) => SequenceMakesClosure(es)
    case Let(bs) => BindingsMakeClosure(bs)
    case Lambda(p) => p.free != {}
    case Call(f, es) => MakesClosure(f) || ArgumentsMakeClosure(es)
    case Apply(f, es) => MakesClosure(f) || ArgumentsMakeClosure(es)
  }

  predicate SequenceMakesClosure(es: Sequence) {
    match es
    case Last(e) => MakesClosure(e)
    case Then(e, rest) => MakesClosure(e) || SequenceMakesClosure(rest)
  }

  predicate ArgumentsMakeClosure(es: Arguments) {
    match es
    case NoMore => false
    case Argument(e, rest) => MakesClosure(e) || ArgumentsMakeClosure(rest)
  }

  predicate BindingsMakeClosure(bs: Bindings) {
    match bs
    case Body(e) => MakesClosure(e)
    case Bind(_, e, rest) => MakesClosure(e) || BindingsMakeClosure(rest)
  }

  /** The value of the expression may be left in a cell that a closure has kept as part of its stack: the cell of
      a computed operator, which is reused for the result of the call, if an argument makes a closure. */
  predicate IsExposed(e: Expr) {
    match e
    case Constant(_) => false
    case Variable(_) => false
    case Assign(_, _) => false
    case If(_, b, c) => IsExposed(b) || IsExposed(c)
    case Begin(es) => IsLastExposed(es)
    case Let(bs) => bs.Body? && IsExposed(bs.expr)
    case Lambda(_) => false
    case Call(f, es) => !f.Variable? && (ArgumentsMakeClosure(es) || IsExposed(f))
    case Apply(f, es) => !f.Variable? && (ArgumentsMakeClosure(es) || IsExposed(f))
  }

  predicate IsLastExposed(es: Sequence) {
    match es
    case Last(e) => IsExposed(e)
    case Then(_, rest) => IsLastExposed(rest)
  }

  /** No variable has the name of an operator, `apply` has an argument, and no test is exposed, because an `if`
      instruction overwrites the cell of its test. */
  predicate Compilable(e: Expr) {
    match e
    case Constant(_) => true
    case Variable(x) => x != OPERATOR
    case Assign(x, e1) => x != OPERATOR && Compilable(e1)
    case If(a, b, c) => !IsExposed(a) && Compilable(a) && Compilable(b) && Compilable(c)
    case Begin(es) => SequenceCompilable(es)
    case Let(bs) => BindingsCompilable(bs)
    case Lambda(p) => OPERATOR !in p.names && SequenceCompilable(p.body)
    case Call(f, es) => Compilable(f) && ArgumentsCompilable(es)
    case Apply(f, es) => es.Argument? && Compilable(f) && ArgumentsCompilable(es)
  }

  predicate SequenceCompilable(es: Sequence) {
    match es
    case Last(e) => Compilable(e)
    case Then(e, rest) => Compilable(e) && SequenceCompilable(rest)
  }

  predicate ArgumentsCompilable(es: Arguments) {
    match es
    case NoMore => true
    case Argument(e, rest) => Compilable(e) && ArgumentsCompilable(rest)
  }

  predicate BindingsCompilable(bs: Bindings) {
    match bs
    case Body(e) => Compilable(e)
    case Bind(x, e, rest) => x != OPERATOR && Compilable(e) && BindingsCompilable(rest)
  }

  // ----- the shape of generated code -----

  // Some instruction follows.
  predicate Continues(k: Code) {
    match k
    case Return => false
    case Nop(next) => Continues(next)
    case _ => true
  }

  /** What may follow an expression: a return, or an instruction that is not a drop before a return. */
  predicate IsContinuation(k: Code) {
    (k.Return? || Continues(k)) && (IsDrop(k) ==> Continues(k.next))
  }

  /** The code for an expression starts by computing something, so it is neither empty nor a drop. */
  lemma {:induction false} ExpressionContinues(c: Context, e: Expr, k: Code)
    ensures Continues(Compile(c, e, k)) && !IsDrop(Compile(c, e, k))
    decreases e, 1
  {
    match e
    case Constant(_) =>
    case Variable(_) =>
    case Assign(x, e1) => ExpressionContinues(c, e1, Set(Resolve([Hidden] + c, x), CompileUnspecified(k)));
    case If(a, b, d) =>
      var k1 := if k.Return? then k else Nop(k);
      ExpressionContinues(c, a, Branch(Compile(c, b, k1), Compile(c, d, k1)));
    case Begin(es) => SequenceContinues(c, es, k);
    case Let(bs) => LetContinues(c, c, bs, k);
    case Lambda(_) =>
    case Call(f, es) => CallContinues(c, e, k);
    case Apply(f, es) => CallContinues(c, e, k);
  }

  lemma {:induction false} SequenceContinues(c: Context, es: Sequence, k: Code)
    ensures Continues(CompileSequence(c, es, k)) && !IsDrop(CompileSequence(c, es, k))
    decreases es
  {
    match es
    case Last(e) => ExpressionContinues(c, e, k);
    case Then(e, rest) => ExpressionContinues(c, e, CompileDrop(CompileSequence(c, rest, k)));
  }

  lemma {:induction false} LetContinues(c: Context, inner: Context, bs: Bindings, k: Code)
    ensures Continues(CompileLet(c, inner, bs, k)) && !IsDrop(CompileLet(c, inner, bs, k))
    decreases bs
  {
    match bs
    case Body(e) => ExpressionContinues(inner, e, k);
    case Bind(x, e, rest) =>
      ExpressionContinues(c, e, CompileLet([Hidden] + c, [Local(x)] + inner, rest, CompileUnbind(k)));
  }

  lemma {:induction false} ArgumentsContinue(c: Context, f: Name, es: Arguments, arity: nat, k: Code)
    ensures Continues(CompileArguments(c, f, es, arity, k)) && !IsDrop(CompileArguments(c, f, es, arity, k))
    decreases es
  {
    if es.Argument? {
      ExpressionContinues(c, es.expr, CompileArguments([Hidden] + c, f, es.rest, arity, k));
    }
  }

  lemma {:induction false} CallContinues(c: Context, e: Expr, k: Code)
    requires e.Call? || e.Apply?
    ensures Continues(CompileCall(c, e, k)) && !IsDrop(CompileCall(c, e, k))
    decreases e, 0
  {
    var arity := Machine.BuildArity(CallArity(e));
    if e.operator.Variable? {
      ArgumentsContinue(c, e.operator.name, e.arguments, arity, k);
    } else {
      ExpressionContinues(c, e.operator,
        CompileArguments([Local(OPERATOR)] + c, OPERATOR, e.arguments, arity, CompileUnsafeUnbind(k)));
    }
  }

  /** The name of operators is not reserved: an argument that is a variable of that name is compiled to a read of
      the operator. Local variables have been renamed when code is generated, so this concerns a global one. */
  lemma {:induction false} OperatorNameIsTaken(c: Context, f: Expr, k: Code)
    requires !f.Variable?
    ensures Compile(c, Expr.Call(f, Argument(Variable(OPERATOR), NoMore)), k)
            == Compile(c, f, Get(Index(0), Code.Call(2, Index(1), CompileUnsafeUnbind(k))))
  {
    var c1, es := [Local(OPERATOR)] + c, Argument(Variable(OPERATOR), NoMore);
    assert ([Hidden] + c1)[1..] == c1;
    assert IndexOf(c1, OPERATOR) == 0;
    assert Machine.BuildArity(CallArity(Expr.Call(f, es))) == 2;
    assert CompileArguments([Hidden] + c1, OPERATOR, NoMore, 2, CompileUnsafeUnbind(k))
        == Code.Call(2, Index(1), CompileUnsafeUnbind(k));
    assert CompileArguments(c1, OPERATOR, es, 2, CompileUnsafeUnbind(k))
        == Get(Index(0), Code.Call(2, Index(1), CompileUnsafeUnbind(k)));
  }
}
