/** Global variables in generated code: every one that an expression uses is there as a symbol. */
module Globals {
  import opened Scheme
  import opened CodeGenerator
  import Machine

  /** The names that operands of the code refer to. */
  function Mentions(k: Code): set<Name>
    decreases k, 0
  {
    match k
    case Return => {}
    case Push(c, next) => MentionsInConstant(c) + Mentions(next)
    case Get(o, next) => MentionsInOperand(o) + Mentions(next)
    case Set(o, next) => MentionsInOperand(o) + Mentions(next)
    case Branch(b, next) => Mentions(b) + Mentions(next)
    case Call(_, o, next) => MentionsInOperand(o) + Mentions(next)
    case Nop(next) => Mentions(next)
  }

  function MentionsInConstant(c: Constant): set<Name>
    decreases c, 0
  {
    if c.Routine? then Mentions(c.body) else {}
  }

  function MentionsInOperand(o: Operand): set<Name> {
    if o.Symbol? then {o.name} else {}
  }

  // The names that are global in a context.
  predicate IsGlobal(c: Context, x: Name) {
    CodeGenerator.IndexOf(c, x) == -1
  }

  lemma {:induction false} GlobalUnder(c: Context, slot: Slot, x: Name)
    ensures IsGlobal([slot] + c, x) <==> slot != Local(x) && IsGlobal(c, x)
  {
    assert ([slot] + c)[1..] == c;
  }

  lemma {:induction false} GlobalInFrame(c: Context, names: seq<Name>, x: Name)
    ensures IsGlobal(FrameContext(names) + c, x) <==> x !in names && IsGlobal(c, x)
    decreases |names|
  {
    if names == [] {
      GlobalUnder(c, Hidden, x);
    } else {
      var n := |names| - 1;
      GlobalInFrame(c, names[..n], x);
      GlobalUnder(FrameContext(names[..n]) + c, Local(names[n]), x);
      assert FrameContext(names) + c == [Local(names[n])] + (FrameContext(names[..n]) + c);
      assert names == names[..n] + [names[n]];
    }
  }

  lemma {:induction false} GlobalIsSymbol(c: Context, x: Name)
    requires IsGlobal(c, x)
    ensures Resolve(c, x) == Symbol(x) && Resolve([Hidden] + c, x) == Symbol(x)
  {
    GlobalUnder(c, Hidden, x);
  }

  /** Code mentions what the code that follows mentions, and the global variables of the expression. */
  lemma {:induction false} FreeIsMentioned(c: Context, e: Expr, k: Code, x: Name)
    requires x in Mentions(k) || (x in Free(e) && IsGlobal(c, x) && x != OPERATOR)
    ensures x in Mentions(Compile(c, e, k))
    decreases e, 2
  {
    match e
    case Constant(_) =>
    case Variable(y) =>
      if x == y && IsGlobal(c, x) {
        GlobalIsSymbol(c, x);
      }
    case Assign(y, e1) =>
      if x == y && IsGlobal(c, x) {
        GlobalIsSymbol(c, x);
      }
      FreeIsMentioned(c, e1, Set(Resolve([Hidden] + c, y), CompileUnspecified(k)), x);
    case If(a, b, d) =>
      var k1 := if k.Return? then k else Nop(k);
      if x in Mentions(k) || x in Free(b) {
        FreeIsMentioned(c, b, k1, x);
      } else if x in Free(d) {
        FreeIsMentioned(c, d, k1, x);
      }
      FreeIsMentioned(c, a, Branch(Compile(c, b, k1), Compile(c, d, k1)), x);
    case Begin(es) => FreeInSequenceIsMentioned(c, es, k, x);
    case Let(bs) => FreeInBindingsIsMentioned(c, c, bs, k, x);
    case Lambda(p) =>
      if x !in Mentions(k) {
        GlobalInFrame(c, p.names, x);
        FreeInSequenceIsMentioned(FrameContext(p.names) + c, p.body, Return, x);
        assert x in MentionsInConstant(CompileProcedure(c, p));
      }
    case Call(f, es) => FreeInCallIsMentioned(c, e, k, x);
    case Apply(f, es) => FreeInCallIsMentioned(c, e, k, x);
  }

  lemma {:induction false} FreeInSequenceIsMentioned(c: Context, es: Sequence, k: Code, x: Name)
    requires x in Mentions(k) || (x in FreeInSequence(es) && IsGlobal(c, x) && x != OPERATOR)
    ensures x in Mentions(CompileSequence(c, es, k))
    decreases es
  {
    match es
    case Last(e) => FreeIsMentioned(c, e, k, x);
    case Then(e, rest) =>
      if x in Mentions(k) || x in FreeInSequence(rest) {
        FreeInSequenceIsMentioned(c, rest, k, x);
      }
      FreeIsMentioned(c, e, CompileDrop(CompileSequence(c, rest, k)), x);
  }

  lemma {:induction false} FreeInBindingsIsMentioned(c: Context, inner: Context, bs: Bindings, k: Code, x: Name)
    requires || x in Mentions(k)
             || (x != OPERATOR
                 && ((x in FreeInInits(bs) && IsGlobal(c, x)) || (x in FreeInBody(bs) && IsGlobal(inner, x))))
    ensures x in Mentions(CompileLet(c, inner, bs, k))
    decreases bs
  {
    match bs
    case Body(e) => FreeIsMentioned(inner, e, k, x);
    case Bind(y, e, rest) =>
      GlobalUnder(c, Hidden, x);
      GlobalUnder(inner, Local(y), x);
      if !(x in Free(e) && IsGlobal(c, x) && x != OPERATOR) {
        FreeInBindingsIsMentioned([Hidden] + c, [Local(y)] + inner, rest, CompileUnbind(k), x);
      }
      FreeIsMentioned(c, e, CompileLet([Hidden] + c, [Local(y)] + inner, rest, CompileUnbind(k)), x);
  }

  lemma {:induction false} FreeInArgumentsIsMentioned(c: Context, f: Name, es: Arguments, arity: nat, k: Code, x: Name)
    requires x in Mentions(k) || (x != OPERATOR && IsGlobal(c, x) && (x == f || x in FreeInArguments(es)))
    ensures x in Mentions(CompileArguments(c, f, es, arity, k))
    decreases es
  {
    match es
    case NoMore =>
      if x == f && IsGlobal(c, x) {
        GlobalIsSymbol(c, x);
      }
    case Argument(e, rest) =>
      GlobalUnder(c, Hidden, x);
      if !(x in Free(e) && IsGlobal(c, x) && x != OPERATOR) {
        FreeInArgumentsIsMentioned([Hidden] + c, f, rest, arity, k, x);
      }
      FreeIsMentioned(c, e, CompileArguments([Hidden] + c, f, rest, arity, k), x);
  }

  lemma {:induction false} FreeInCallIsMentioned(c: Context, e: Expr, k: Code, x: Name)
    requires e.Call? || e.Apply?
    requires x in Mentions(k) || (x in Free(e) && IsGlobal(c, x) && x != OPERATOR)
    ensures x in Mentions(CompileCall(c, e, k))
    decreases e, 1
  {
    var arity := Machine.BuildArity(CallArity(e));
    if e.operator.Variable? {
      FreeInArgumentsIsMentioned(c, e.operator.name, e.arguments, arity, k, x);
    } else {
      var c1, k1 := [Local(OPERATOR)] + c, CompileUnsafeUnbind(k);
      GlobalUnder(c, Local(OPERATOR), x);
      if x in Mentions(k) || x in FreeInArguments(e.arguments) {
        FreeInArgumentsIsMentioned(c1, OPERATOR, e.arguments, arity, k1, x);
      }
      FreeIsMentioned(c, e.operator, CompileArguments(c1, OPERATOR, e.arguments, arity, k1), x);
    }
  }
}
