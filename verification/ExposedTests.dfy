/** A program that the code generator gets wrong: the test of its `if` form is a call with a computed operator,
    and a closure among the arguments keeps the operator's cell, which the `if` instruction then overwrites. */
module ExposedTests {
  import opened Stores
  import opened Scheme
  import opened CodeGenerator
  import opened Machine
  import opened Worlds
  import opened Compilation
  import opened Programs

  // ----- the program -----

  // (lambda () x)
  const GETTER := Procedure({"x"}, [], false, Last(Variable("x")))

  const ONE := Plain(Datum(Number(1)))
  const ZERO := Plain(Datum(Number(0)))
  const NUMBERS := Argument(Constant(ONE.literal), Argument(Constant(ZERO.literal), NoMore))

  // ((begin rib) (set! f (lambda () x)) 1 0)
  const TEST := Expr.Call(Begin(Last(Variable("rib"))), Argument(Assign("f", Lambda(GETTER)), NUMBERS))

  // (let ((x 7)) (if ((begin rib) (set! f (lambda () x)) 1 0) (f) #f))
  const PROGRAM :=
    Let(Bind("x", Constant(Datum(Number(7))),
             Body(If(TEST, CALL_F, Constant(False)))))

  const ENV: Env := map["rib" := 0, "f" := 1]
  const GLOBALS: Locations := [Data.Primitive(RIB), Plain(False)]

  const SEVEN := Plain(Datum(Number(7)))
  const INNER: Env := ENV["x" := 2]
  // The locations before and after the assignment to f.
  const BEFORE: Locations := GLOBALS + [SEVEN]
  const AFTER: Locations := BEFORE[1 := Closure(GETTER, INNER)]

  lemma {:induction false} NumbersMean()
    ensures EvalArguments(1, NUMBERS, INNER, AFTER) == Done([ONE, ZERO], AFTER)
  {
    assert Eval(1, Constant(ZERO.literal), INNER, AFTER) == Done(ZERO, AFTER);
    assert EvalArguments(1, NUMBERS.rest.rest, INNER, AFTER) == Done([], AFTER);
    assert [ZERO] + [] == [ZERO];
    assert EvalArguments(1, NUMBERS.rest, INNER, AFTER) == Done([ZERO], AFTER);
    assert [ONE] + [ZERO] == [ONE, ZERO];
  }

  lemma {:induction false} TestMeansRib()
    ensures Eval(1, TEST, INNER, BEFORE) == Done(Rib(Plain(False), ONE, 0), AFTER)
  {
    NumbersMean();
    assert Eval(1, TEST.operator, INNER, BEFORE) == Done(Data.Primitive(RIB), BEFORE) by {
      assert Eval(1, Variable("rib"), INNER, BEFORE) == Done(Data.Primitive(RIB), BEFORE);
    }
    assert Eval(1, Lambda(GETTER), INNER, BEFORE) == Done(Closure(GETTER, INNER), BEFORE);
    assert Eval(1, TEST.arguments.expr, INNER, BEFORE) == Done(Plain(False), AFTER);
    assert [Plain(False)] + [ONE, ZERO] == [Plain(False), ONE, ZERO];
    assert EvalArguments(1, TEST.arguments, INNER, BEFORE) == Done([Plain(False), ONE, ZERO], AFTER);
  }

  const CALL_F := Expr.Call(Variable("f"), NoMore)

  lemma {:induction false} CallMeansSeven()
    ensures Eval(1, CALL_F, INNER, AFTER) == Done(SEVEN, AFTER)
  {
    assert EvalSequence(0, GETTER.body, INNER, AFTER) == Done(SEVEN, AFTER) by {
      assert Eval(0, Variable("x"), INNER, AFTER) == Done(SEVEN, AFTER);
    }
    assert AFTER + [] == AFTER;
    assert EvalArguments(1, NoMore, INNER, AFTER) == Done([], AFTER);
    assert BindNames(INNER, [], 3) == INNER;
  }

  /** The program means seven. */
  lemma {:induction false} MeansSeven()
    ensures Eval(1, PROGRAM, ENV, GLOBALS) == Done(SEVEN, AFTER)
  {
    assert Eval(1, PROGRAM.bindings.init, ENV, GLOBALS) == Done(SEVEN, GLOBALS);
    assert Eval(1, PROGRAM.bindings.rest.expr, INNER, BEFORE) == Done(SEVEN, AFTER) by {
      TestMeansRib();
      CallMeansSeven();
    }
    assert EvalBindings(1, PROGRAM.bindings.rest, ENV, INNER, BEFORE) == Done(SEVEN, AFTER);
  }

  // ----- its code in a heap -----

  function P(index: nat, tag: nat): Value {
    Pointer(Cons(index, tag))
  }

  // Null, false, and the symbols and primitives.
  function DataWord(i: nat): Value {
    match i
    case 0 => Number(0) case 1 => P(0, 0)
    case 2 => P(0, 0) case 3 => P(0, 0)
    case 4 => P(8, 0) case 5 => Number(0)
    case 6 => P(10, 0) case 7 => Number(0)
    case 8 => Number(0) case 9 => P(0, 3)
    case 10 => Number(1) case 11 => P(0, 3)
    case 12 => P(2, 0) case 13 => Number(0)
    case 14 => P(16, 0) case 15 => Number(0)
    case 16 => Number(2) case 17 => P(0, 3)
    case _ => Number(0)
  }

  // The end of the run, its continuation and its frame.
  function FrameWord(i: nat): Value {
    match i
    case 18 => Number(0) case 19 => P(0, 0)
    case 20 => P(18, 0) case 21 => P(0, 0)
    case 22 => P(20, 0) case 23 => P(0, 1)
    case _ => Number(0)
  }

  // The code.
  function CodeWord(i: nat): Value {
    match i
    case 24 => Number(7) case 25 => P(26, 0)
    case 26 => P(4, 0) case 27 => P(28, 1)
    case 28 => P(48, 0) case 29 => P(30, 0)
    case 30 => P(6, 0) case 31 => P(32, 6)
    case 32 => P(12, 0) case 33 => P(34, 2)
    case 34 => P(2, 0) case 35 => P(36, 0)
    case 36 => Number(1) case 37 => P(38, 0)
    case 38 => Number(0) case 39 => P(40, 0)
    case _ => Number(0)
  }

  // The rest of the code, with the branches at 46 and 54 and the procedure at 48.
  function BranchWord(i: nat): Value {
    match i
    case 40 => Number(3) case 41 => P(42, 10)
    case 42 => Number(1) case 43 => P(44, 2)
    case 44 => P(46, 0) case 45 => P(54, 3)
    case 46 => P(12, 0) case 47 => P(0, 4)
    case 48 => P(50, 0) case 49 => P(0, 3)
    case 50 => Number(0) case 51 => P(52, 0)
    case 52 => Number(2) case 53 => P(0, 1)
    case 54 => P(2, 0) case 55 => P(0, 0)
    case _ => Number(0)
  }

  function Word(i: nat): Value {
    if i < 18 then DataWord(i) else if i < 24 then FrameWord(i) else if i < 40 then CodeWord(i) else BranchWord(i)
  }

  function Words(): (r: seq<Value>)
    ensures |r| == 56 && forall i :: 0 <= i < 56 ==> r[i] == Word(i)
  {
    seq(56, i requires 0 <= i => Word(i))
  }

  // The words that stay as they are: all but the cells of rib and f.
  function Fixed(): (r: map<nat, Value>)
    ensures forall j: nat :: j in r <==> j < 56 && j != 4 && j != 12
    ensures forall j: nat :: j in r ==> r[j] == Word(j)
  {
    map j: nat | j < 56 && j != 4 && j != 12 :: Word(j)
  }

  const START := Store(Words(), Cons(24, 0), Cons(22, 0), Cons(2, 0), NEVER)

  const SYMBOLS: map<Name, nat> := map["rib" := 4, "$$close" := 6, "f" := 12, "$$unbind" := 14]

  const WORLD := World(Fixed(), [4, 12], SYMBOLS, 2, 0)

  const LOADED := Point(WORLD, START, GLOBALS)

  // ----- the program is loaded -----

  const GETTER_CODE := Get(Index(2), Return)
  const ELSE_CODE := Push(Quoted(False), Return)
  const THEN_CODE := Code.Call(0, Symbol("f"), Return)
  const BRANCH := Branch(THEN_CODE, ELSE_CODE)
  const CALL_RIB := Code.Call(6, Index(3), Set(Index(1), BRANCH))
  const PUSH_NUMBERS := Push(Quoted(ONE.literal), Push(Quoted(ZERO.literal), CALL_RIB))
  const SET_F := Set(Symbol("f"), Push(Quoted(False), PUSH_NUMBERS))
  const CLOSE_GETTER := Push(Routine(0, GETTER_CODE), Code.Call(2, Symbol("$$close"), SET_F))
  const CODE := Push(Quoted(SEVEN.literal), Get(Symbol("rib"), CLOSE_GETTER))

  const IN_LET: Context := [Local("x")]
  const IN_CALL: Context := [Local(OPERATOR)] + IN_LET

  lemma {:induction false} GetterCompiles()
    ensures CompileProcedure(IN_CALL, GETTER) == Routine(0, GETTER_CODE)
  {
    var c := FrameContext([]) + IN_CALL;
    assert c == [Hidden, Local(OPERATOR), Local("x")];
    assert c[1..] == [Local(OPERATOR), Local("x")] && c[1..][1..] == [Local("x")];
    assert CodeGenerator.IndexOf([Local("x")], "x") == 0;
    assert CodeGenerator.IndexOf(c[1..], "x") == 1;
    assert Resolve(c, "x") == Index(2);
  }

  lemma {:induction false} AssignCompiles()
    ensures Compile(IN_CALL, Assign("f", Lambda(GETTER)), PUSH_NUMBERS) == CLOSE_GETTER
  {
    GetterCompiles();
    var c := [Hidden] + IN_CALL;
    assert c[1..] == [Local(OPERATOR), Local("x")] && c[1..][1..] == [Local("x")] && c[1..][1..][1..] == [];
    assert CodeGenerator.IndexOf([Local("x")], "f") == -1;
    assert CodeGenerator.IndexOf(c[1..], "f") == -1;
    assert Resolve(c, "f") == Symbol("f");
  }

  lemma {:induction false} ArgumentsCompile()
    ensures CompileArguments([Hidden] + IN_CALL, OPERATOR, NUMBERS, 6, Set(Index(1), BRANCH)) == PUSH_NUMBERS
  {
    var c := [Hidden] + ([Hidden] + ([Hidden] + IN_CALL));
    assert c == [Hidden, Hidden, Hidden, Local(OPERATOR), Local("x")];
    assert CodeGenerator.IndexOf(c[3..], OPERATOR) == 0;
    assert c[1..] == [Hidden, Hidden, Local(OPERATOR), Local("x")];
    assert c[2..] == [Hidden, Local(OPERATOR), Local("x")];
    assert CodeGenerator.IndexOf(c[2..], OPERATOR) == 1;
    assert CodeGenerator.IndexOf(c[1..], OPERATOR) == 2;
    assert Resolve(c, OPERATOR) == Index(3);
    assert CompileArguments(c, OPERATOR, NoMore, 6, Set(Index(1), BRANCH)) == CALL_RIB;
    assert CompileArguments([Hidden] + ([Hidden] + IN_CALL), OPERATOR, NUMBERS.rest, 6, Set(Index(1), BRANCH))
        == Push(Quoted(ZERO.literal), CALL_RIB);
  }

  lemma {:induction false} ProgramCompiles()
    ensures Compile([], PROGRAM, Return) == CODE
  {
    ArgumentsCompile();
    AssignCompiles();
    assert CodeGenerator.IndexOf([], "rib") == -1 && CodeGenerator.IndexOf([], "f") == -1;
    assert IN_LET[1..] == [];
    assert Resolve(IN_LET, "rib") == Symbol("rib") && Resolve(IN_LET, "f") == Symbol("f");
    var call := Expr.Call(Variable("f"), NoMore);
    assert Compile(IN_LET, call, Return) == THEN_CODE;
    assert BuildArity(CallArity(TEST)) == 6;
    assert CompileArguments(IN_CALL, OPERATOR, TEST.arguments, 6, Set(Index(1), BRANCH)) == CLOSE_GETTER;
    assert Compile(IN_LET, TEST, BRANCH) == Get(Symbol("rib"), CLOSE_GETTER);
    assert [Local("x")] + [] == IN_LET;
    assert CompileLet([Hidden] + [], IN_LET, PROGRAM.bindings.rest, Return) == Get(Symbol("rib"), CLOSE_GETTER);
  }

  lemma {:induction false} DataWords()
    ensures IsFixed(WORLD, 0) && WORLD.fixed[0] == Number(0) && WORLD.fixed[1] == P(0, 0)
    ensures IsFixed(WORLD, 2) && WORLD.fixed[2] == P(0, 0) && WORLD.fixed[3] == P(0, 0)
    ensures 4 !in WORLD.fixed && 5 in WORLD.fixed && WORLD.fixed[5] == Number(0)
    ensures IsFixed(WORLD, 6) && WORLD.fixed[6] == P(10, 0) && WORLD.fixed[7] == Number(0)
    ensures IsFixed(WORLD, 8) && WORLD.fixed[8] == Number(0) && WORLD.fixed[9] == P(0, 3)
    ensures IsFixed(WORLD, 10) && WORLD.fixed[10] == Number(1) && WORLD.fixed[11] == P(0, 3)
    ensures 12 !in WORLD.fixed && 13 in WORLD.fixed && WORLD.fixed[13] == Number(0)
    ensures IsFixed(WORLD, 14) && WORLD.fixed[14] == P(16, 0) && WORLD.fixed[15] == Number(0)
    ensures IsFixed(WORLD, 16) && WORLD.fixed[16] == Number(2) && WORLD.fixed[17] == P(0, 3)
    ensures IsFixed(WORLD, 18) && WORLD.fixed[18] == Number(0) && WORLD.fixed[19] == P(0, 0)
    ensures IsFixed(WORLD, 20) && WORLD.fixed[20] == P(18, 0) && WORLD.fixed[21] == P(0, 0)
    ensures IsFixed(WORLD, 22) && WORLD.fixed[22] == P(20, 0) && WORLD.fixed[23] == P(0, 1)
  {
  }

  lemma {:induction false} LowCodeWords()
    ensures IsFixed(WORLD, 24) && WORLD.fixed[24] == Number(7) && WORLD.fixed[25] == P(26, 0)
    ensures IsFixed(WORLD, 26) && WORLD.fixed[26] == P(4, 0) && WORLD.fixed[27] == P(28, 1)
    ensures IsFixed(WORLD, 28) && WORLD.fixed[28] == P(48, 0) && WORLD.fixed[29] == P(30, 0)
    ensures IsFixed(WORLD, 30) && WORLD.fixed[30] == P(6, 0) && WORLD.fixed[31] == P(32, 6)
    ensures IsFixed(WORLD, 32) && WORLD.fixed[32] == P(12, 0) && WORLD.fixed[33] == P(34, 2)
    ensures IsFixed(WORLD, 34) && WORLD.fixed[34] == P(2, 0) && WORLD.fixed[35] == P(36, 0)
    ensures IsFixed(WORLD, 36) && WORLD.fixed[36] == Number(1) && WORLD.fixed[37] == P(38, 0)
    ensures IsFixed(WORLD, 38) && WORLD.fixed[38] == Number(0) && WORLD.fixed[39] == P(40, 0)
  {
  }

  lemma {:induction false} HighCodeWords()
    ensures IsFixed(WORLD, 40) && WORLD.fixed[40] == Number(3) && WORLD.fixed[41] == P(42, 10)
    ensures IsFixed(WORLD, 42) && WORLD.fixed[42] == Number(1) && WORLD.fixed[43] == P(44, 2)
    ensures IsFixed(WORLD, 44) && WORLD.fixed[44] == P(46, 0) && WORLD.fixed[45] == P(54, 3)
    ensures IsFixed(WORLD, 46) && WORLD.fixed[46] == P(12, 0) && WORLD.fixed[47] == P(0, 4)
    ensures IsFixed(WORLD, 48) && WORLD.fixed[48] == P(50, 0) && WORLD.fixed[49] == P(0, 3)
    ensures IsFixed(WORLD, 50) && WORLD.fixed[50] == Number(0) && WORLD.fixed[51] == P(52, 0)
    ensures IsFixed(WORLD, 52) && WORLD.fixed[52] == Number(2) && WORLD.fixed[53] == P(0, 1)
    ensures IsFixed(WORLD, 54) && WORLD.fixed[54] == P(2, 0) && WORLD.fixed[55] == P(0, 0)
  {
  }

  lemma {:induction false} CodeWords()
    ensures IsFixed(WORLD, 24) && WORLD.fixed[24] == Number(7) && WORLD.fixed[25] == P(26, 0)
    ensures IsFixed(WORLD, 26) && WORLD.fixed[26] == P(4, 0) && WORLD.fixed[27] == P(28, 1)
    ensures IsFixed(WORLD, 28) && WORLD.fixed[28] == P(48, 0) && WORLD.fixed[29] == P(30, 0)
    ensures IsFixed(WORLD, 30) && WORLD.fixed[30] == P(6, 0) && WORLD.fixed[31] == P(32, 6)
    ensures IsFixed(WORLD, 32) && WORLD.fixed[32] == P(12, 0) && WORLD.fixed[33] == P(34, 2)
    ensures IsFixed(WORLD, 34) && WORLD.fixed[34] == P(2, 0) && WORLD.fixed[35] == P(36, 0)
    ensures IsFixed(WORLD, 36) && WORLD.fixed[36] == Number(1) && WORLD.fixed[37] == P(38, 0)
    ensures IsFixed(WORLD, 38) && WORLD.fixed[38] == Number(0) && WORLD.fixed[39] == P(40, 0)
    ensures IsFixed(WORLD, 40) && WORLD.fixed[40] == Number(3) && WORLD.fixed[41] == P(42, 10)
    ensures IsFixed(WORLD, 42) && WORLD.fixed[42] == Number(1) && WORLD.fixed[43] == P(44, 2)
    ensures IsFixed(WORLD, 44) && WORLD.fixed[44] == P(46, 0) && WORLD.fixed[45] == P(54, 3)
    ensures IsFixed(WORLD, 46) && WORLD.fixed[46] == P(12, 0) && WORLD.fixed[47] == P(0, 4)
    ensures IsFixed(WORLD, 48) && WORLD.fixed[48] == P(50, 0) && WORLD.fixed[49] == P(0, 3)
    ensures IsFixed(WORLD, 50) && WORLD.fixed[50] == Number(0) && WORLD.fixed[51] == P(52, 0)
    ensures IsFixed(WORLD, 52) && WORLD.fixed[52] == Number(2) && WORLD.fixed[53] == P(0, 1)
    ensures IsFixed(WORLD, 54) && WORLD.fixed[54] == P(2, 0) && WORLD.fixed[55] == P(0, 0)
  {
    LowCodeWords();
    HighCodeWords();
    hide Word, Words, Fixed;
  }

  lemma {:induction false} GetterIsThere()
    ensures HasConstant(WORLD, Routine(0, GETTER_CODE), WORLD.fixed[28])
  {
    CodeWords();
    hide Word, Words, Fixed;
    assert HasCode(WORLD, 52, GETTER_CODE);
  }

  lemma {:induction false} CallIsThere()
    ensures HasCode(WORLD, 36, PUSH_NUMBERS)
  {
    CodeWords();
    hide Word, Words, Fixed;
    assert HasCode(WORLD, 46, THEN_CODE) && HasCode(WORLD, 54, ELSE_CODE);
    assert HasCode(WORLD, 44, BRANCH);
    assert HasCode(WORLD, 42, CALL_RIB.next);
    assert HasCode(WORLD, 40, CALL_RIB);
    assert HasCode(WORLD, 38, PUSH_NUMBERS.next);
  }

  lemma {:induction false} CodeIsThere()
    ensures HasCode(WORLD, 24, CODE)
  {
    CodeWords();
    GetterIsThere();
    CallIsThere();
    hide Word, Words, Fixed;
    assert HasCode(WORLD, 34, SET_F.next);
    assert HasCode(WORLD, 32, SET_F);
    assert HasCode(WORLD, 30, CLOSE_GETTER.next);
    assert HasCode(WORLD, 28, CLOSE_GETTER);
    assert HasCode(WORLD, 26, CODE.next);
  }

  lemma {:induction false} GlobalsAreThere()
    ensures Holds(LOADED)
  {
    DataWords();
    assert START.words[4] == P(8, 0) && START.words[12] == P(2, 0);
    assert FixedIn(WORLD, START.words);
    hide Word, Words, Fixed;
    assert IsData(WORLD, GLOBALS[0], P(8, 0)) && IsData(WORLD, GLOBALS[1], P(2, 0));
    assert HoldsVar(WORLD, START.words, GLOBALS, 0);
    assert HoldsVar(WORLD, START.words, GLOBALS, 1);
    assert HasPrimitive(WORLD, "$$close", CLOSE) && HasPrimitive(WORLD, "$$unbind", UNBIND);
  }

  lemma {:induction false} EnvIsThere(names: set<Name>)
    ensures HasEnv(WORLD, [], 22, ENV, names)
  {
    assert CodeGenerator.IndexOf([], "rib") == -1 && CodeGenerator.IndexOf([], "f") == -1;
  }

  lemma {:induction false} IsAnalyzed()
    ensures Analyzed({}, PROGRAM)
  {
    var c: set<Name> := {"x"};
    assert Named([]) + c == c;
    assert SequenceAnalyzed(c, GETTER.body);
    assert Free(Lambda(GETTER)) == {"x"};
    assert Analyzed(c, Lambda(GETTER));
    assert Analyzed(c, TEST.arguments.expr);
    assert ArgumentsAnalyzed(c, NUMBERS.rest) && ArgumentsAnalyzed(c, NUMBERS);
    assert ArgumentsAnalyzed(c, TEST.arguments);
    assert Analyzed(c, TEST.operator);
    assert Analyzed(c, TEST);
    assert Analyzed(c, PROGRAM.bindings.rest.expr);
    assert {"x"} + {} == c;
  }

  /** All that generated code relies on is there, except that the test is exposed. */
  lemma {:induction false} ProgramIsLoaded()
    ensures IsLoaded(LOADED, PROGRAM, ENV) && IsExposed(TEST) && !Compilable(PROGRAM)
  {
    ProgramCompiles();
    CodeIsThere();
    GlobalsAreThere();
    EnvIsThere(Free(PROGRAM));
    IsAnalyzed();
    FrameIsThere();
    NoLinks(WORLD);
    TestIsExposed();
    hide Compile, HasCode, Holds, HasEnv, HasFrame, Analyzed, Compilable, IsExposed, Free;
    assert WORLD.nil == 0;
  }

  lemma {:induction false} FrameIsThere()
    ensures HasFrame(WORLD, 22, 0, Caller(0, 0))
  {
    DataWords();
    hide Word, Words, Fixed;
  }

  lemma {:induction false} TestIsExposed()
    ensures IsExposed(TEST) && !Compilable(PROGRAM)
  {
    assert !Compilable(PROGRAM.bindings.rest.expr);
  }

  // ----- and goes wrong -----

  function State(words: seq<Value>, stack: Cons, code: Cons): Store {
    START.(words := words, stack := stack, code := code)
  }

  lemma {:induction false} Operator9(w: seq<Value>)
    requires |w| == 72 && w[71] == P(68, 0) && w[69] == P(66, 0) && w[67] == P(58, 0) && w[58] == P(8, 0)
    requires w[40] == Number(3)
    ensures ProcedureOf(State(w, Cons(70, 0), Cons(40, 0))) == Run.Ok(Cons(8, 0))
  {
    var s := State(w, Cons(70, 0), Cons(40, 0));
    assert TailOf(s, Cons(58, 0), 0) == Run.Ok(Cons(58, 0));
    assert TailOf(s, Cons(66, 0), 1) == TailOf(s, Cons(58, 0), 0);
    assert TailOf(s, Cons(68, 0), 2) == TailOf(s, Cons(66, 0), 1);
  }

  lemma {:induction false} Rib9(w: seq<Value>)
    requires |w| == 72 && w[70] == Number(0) && w[71] == P(68, 0) && w[68] == Number(1) && w[69] == P(66, 0)
    requires w[66] == P(2, 0) && w[67] == P(58, 0)
    ensures RibOf(State(w, Cons(70, 0), Cons(40, 0)))
            == Run.Ok(State(w + [P(2, 0), Number(1), P(72, 0), P(58, 0)], Cons(74, 0), Cons(40, 0)))
  {
    assert w + [P(2, 0), Number(1)] + [P(72, 0), P(58, 0)] == w + [P(2, 0), Number(1), P(72, 0), P(58, 0)];
  }

  lemma {:induction false} Get13(w: seq<Value>)
    requires |w| == 78 && w[77] == P(58, 1) && w[59] == P(46, 0) && w[46] == P(12, 0) && w[52] == Number(2)
    ensures GetOf(State(w, Cons(76, 0), Cons(52, 0)).(register := Cons(0, 0)))
            == Run.Ok(State(w + [P(12, 0), P(76, 0)], Cons(78, 0), Cons(52, 0)).(register := Cons(0, 0)))
  {
    var s := State(w, Cons(76, 0), Cons(52, 0)).(register := Cons(0, 0));
    assert TailOf(s, Cons(46, 0), 0) == Run.Ok(Cons(46, 0));
    assert TailOf(s, Cons(58, 1), 1) == TailOf(s, Cons(46, 0), 0);
  }

  lemma {:induction false} Return13(w: seq<Value>)
    requires |w| == 80 && w[79] == P(76, 0) && w[77] == P(58, 1) && w[76] == P(20, 0) && w[20] == P(18, 0)
    requires w[21] == P(0, 0) && w[18] == Number(0) && w[19] == P(0, 0) && w[2] == P(0, 0) && w[53] == P(0, 1)
    ensures AdvanceOf(State(w, Cons(78, 0), Cons(52, 0)).(register := Cons(0, 0)))
            == Run.Ok(State(w[79 := P(0, 0)], Cons(78, 0), Cons(0, 0)).(register := Cons(0, 0)))
  {
    var s := State(w, Cons(78, 0), Cons(52, 0)).(register := Cons(0, 0));
    assert FrameFrom(s, Cons(76, 0), 79) == Run.Ok(Cons(76, 0));
    assert ContinuationOf(s) == Run.Ok(Cons(20, 0));
  }

  lemma {:induction false} OneMore(s: Store, s': Store, n: nat)
    requires NullOf(s).Ok? && !s.code.Same(NullOf(s).value) && StepOf(s) == Run.Ok(s')
    ensures StepsOf(s, n + 1) == StepsOf(s', n)
  {
    hide StepOf;
  }

  lemma {:induction false} Step1(w: seq<Value>, k: nat)
    requires |w| == 56 && w[2] == P(0, 0) && w[3] == P(0, 0) && w[24] == Number(7) && w[25] == P(26, 0)
    ensures StepsOf(State(w, Cons(22, 0), Cons(24, 0)), k + 1)
            == StepsOf(State(w + [Number(7), P(22, 0)], Cons(56, 0), Cons(26, 0)), k)
  {
    OneMore(State(w, Cons(22, 0), Cons(24, 0)),
            State(w + [Number(7), P(22, 0)], Cons(56, 0), Cons(26, 0)), k);
  }

  lemma {:induction false} Step2(w: seq<Value>, k: nat)
    requires |w| == 58 && w[2] == P(0, 0) && w[4] == P(8, 0) && w[26] == P(4, 0) && w[27] == P(28, 1)
    ensures StepsOf(State(w, Cons(56, 0), Cons(26, 0)), k + 1)
            == StepsOf(State(w + [P(8, 0), P(56, 0)], Cons(58, 0), Cons(28, 1)), k)
  {
    OneMore(State(w, Cons(56, 0), Cons(26, 0)),
            State(w + [P(8, 0), P(56, 0)], Cons(58, 0), Cons(28, 1)), k);
  }

  lemma {:induction false} Step3(w: seq<Value>, k: nat)
    requires |w| == 60 && w[2] == P(0, 0) && w[28] == P(48, 0) && w[29] == P(30, 0)
    ensures StepsOf(State(w, Cons(58, 0), Cons(28, 1)), k + 1)
            == StepsOf(State(w + [P(48, 0), P(58, 0)], Cons(60, 0), Cons(30, 0)), k)
  {
    OneMore(State(w, Cons(58, 0), Cons(28, 1)),
            State(w + [P(48, 0), P(58, 0)], Cons(60, 0), Cons(30, 0)), k);
  }

  lemma {:induction false} Step4(w: seq<Value>, k: nat)
    requires |w| == 62 && w[2] == P(0, 0) && w[6] == P(10, 0) && w[10] == Number(1) && w[11] == P(0, 3)
    requires w[30] == P(6, 0) && w[31] == P(32, 6) && w[48] == P(50, 0) && w[60] == P(48, 0) && w[61] == P(58, 0)
    ensures StepsOf(State(w, Cons(60, 0), Cons(30, 0)), k + 1)
            == StepsOf(State(w + [P(50, 0), P(58, 3), P(62, 0), P(58, 0)], Cons(64, 0), Cons(32, 6)), k)
  {
    assert w + [P(50, 0), P(58, 3)] + [P(62, 0), P(58, 0)] == w + [P(50, 0), P(58, 3), P(62, 0), P(58, 0)];
    assert ProcedureOf(State(w, Cons(60, 0), Cons(30, 0))) == Run.Ok(Cons(10, 0));
    OneMore(State(w, Cons(60, 0), Cons(30, 0)),
            State(w + [P(50, 0), P(58, 3), P(62, 0), P(58, 0)], Cons(64, 0), Cons(32, 6)), k);
  }

  lemma {:induction false} Step5(w: seq<Value>, k: nat)
    requires |w| == 66 && w[2] == P(0, 0) && w[32] == P(12, 0) && w[33] == P(34, 2) && w[64] == P(62, 0)
    requires w[65] == P(58, 0)
    ensures StepsOf(State(w, Cons(64, 0), Cons(32, 6)), k + 1)
            == StepsOf(State(w[12 := P(62, 0)], Cons(58, 0), Cons(34, 2)), k)
  {
    OneMore(State(w, Cons(64, 0), Cons(32, 6)),
            State(w[12 := P(62, 0)], Cons(58, 0), Cons(34, 2)), k);
  }

  lemma {:induction false} Step6(w: seq<Value>, k: nat)
    requires |w| == 66 && w[2] == P(0, 0) && w[34] == P(2, 0) && w[35] == P(36, 0)
    ensures StepsOf(State(w, Cons(58, 0), Cons(34, 2)), k + 1)
            == StepsOf(State(w + [P(2, 0), P(58, 0)], Cons(66, 0), Cons(36, 0)), k)
  {
    OneMore(State(w, Cons(58, 0), Cons(34, 2)),
            State(w + [P(2, 0), P(58, 0)], Cons(66, 0), Cons(36, 0)), k);
  }

  lemma {:induction false} Step7(w: seq<Value>, k: nat)
    requires |w| == 68 && w[2] == P(0, 0) && w[36] == Number(1) && w[37] == P(38, 0)
    ensures StepsOf(State(w, Cons(66, 0), Cons(36, 0)), k + 1)
            == StepsOf(State(w + [Number(1), P(66, 0)], Cons(68, 0), Cons(38, 0)), k)
  {
    OneMore(State(w, Cons(66, 0), Cons(36, 0)),
            State(w + [Number(1), P(66, 0)], Cons(68, 0), Cons(38, 0)), k);
  }

  lemma {:induction false} Step8(w: seq<Value>, k: nat)
    requires |w| == 70 && w[2] == P(0, 0) && w[38] == Number(0) && w[39] == P(40, 0)
    ensures StepsOf(State(w, Cons(68, 0), Cons(38, 0)), k + 1)
            == StepsOf(State(w + [Number(0), P(68, 0)], Cons(70, 0), Cons(40, 0)), k)
  {
    OneMore(State(w, Cons(68, 0), Cons(38, 0)),
            State(w + [Number(0), P(68, 0)], Cons(70, 0), Cons(40, 0)), k);
  }

  lemma {:induction false} Step9(w: seq<Value>, k: nat)
    requires |w| == 72 && w[2] == P(0, 0) && w[8] == Number(0) && w[9] == P(0, 3) && w[40] == Number(3)
    requires w[41] == P(42, 10) && w[58] == P(8, 0) && w[66] == P(2, 0) && w[67] == P(58, 0) && w[68] == Number(1)
    requires w[69] == P(66, 0) && w[70] == Number(0) && w[71] == P(68, 0)
    ensures StepsOf(State(w, Cons(70, 0), Cons(40, 0)), k + 1)
            == StepsOf(State(w + [P(2, 0), Number(1), P(72, 0), P(58, 0)], Cons(74, 0), Cons(42, 10)), k)
  {
    Operator9(w);
    Rib9(w);
    hide RibOf, ProcedureOf;
    OneMore(State(w, Cons(70, 0), Cons(40, 0)),
            State(w + [P(2, 0), Number(1), P(72, 0), P(58, 0)], Cons(74, 0), Cons(42, 10)), k);
  }

  lemma {:induction false} Step10(w: seq<Value>, k: nat)
    requires |w| == 76 && w[2] == P(0, 0) && w[42] == Number(1) && w[43] == P(44, 2) && w[74] == P(72, 0)
    requires w[75] == P(58, 0)
    ensures StepsOf(State(w, Cons(74, 0), Cons(42, 10)), k + 1)
            == StepsOf(State(w[58 := P(72, 0)], Cons(58, 0), Cons(44, 2)), k)
  {
    assert TailOf(State(w, Cons(74, 0), Cons(42, 10)), Cons(58, 0), 0) == Run.Ok(Cons(58, 0));
    OneMore(State(w, Cons(74, 0), Cons(42, 10)),
            State(w[58 := P(72, 0)], Cons(58, 0), Cons(44, 2)), k);
  }

  lemma {:induction false} Step11(w: seq<Value>, k: nat)
    requires |w| == 76 && w[2] == P(0, 0) && w[44] == P(46, 0) && w[45] == P(54, 3) && w[46] == P(12, 0)
    requires w[58] == P(72, 0) && w[59] == P(56, 0)
    ensures StepsOf(State(w, Cons(58, 0), Cons(44, 2)), k + 1)
            == StepsOf(State(w[59 := P(46, 0)], Cons(56, 0), Cons(46, 0)), k)
  {
    OneMore(State(w, Cons(58, 0), Cons(44, 2)),
            State(w[59 := P(46, 0)], Cons(56, 0), Cons(46, 0)), k);
  }

  lemma {:induction false} Step12(w: seq<Value>, k: nat)
    requires |w| == 76 && w[2] == P(0, 0) && w[12] == P(62, 0) && w[20] == P(18, 0) && w[22] == P(20, 0)
    requires w[23] == P(0, 1) && w[46] == P(12, 0) && w[47] == P(0, 4) && w[48] == P(50, 0) && w[50] == Number(0)
    requires w[51] == P(52, 0) && w[56] == Number(7) && w[57] == P(22, 0) && w[62] == P(50, 0) && w[63] == P(58, 3)
    ensures StepsOf(State(w, Cons(56, 0), Cons(46, 0)), k + 1)
            == StepsOf(State(w + [P(20, 0), P(58, 1)], Cons(76, 0), Cons(52, 0)).(register := Cons(0, 0)), k)
  {
    var s := State(w, Cons(56, 0), Cons(46, 0));
    assert FrameFrom(s.(stack := Cons(56, 0), code := Cons(62, 0)), Cons(22, 0), 75) == Run.Ok(Cons(22, 0));
    assert ContinuationOf(s.(code := Cons(62, 0), register := Cons(0, 0))) == Run.Ok(Cons(20, 0));
    OneMore(State(w, Cons(56, 0), Cons(46, 0)),
            State(w + [P(20, 0), P(58, 1)], Cons(76, 0), Cons(52, 0)).(register := Cons(0, 0)), k);
  }

  lemma {:induction false} Step13(w: seq<Value>, k: nat)
    requires |w| == 78 && w[2] == P(0, 0) && w[18] == Number(0) && w[19] == P(0, 0) && w[20] == P(18, 0)
    requires w[21] == P(0, 0) && w[46] == P(12, 0) && w[52] == Number(2) && w[53] == P(0, 1) && w[58] == P(72, 0)
    requires w[59] == P(46, 0) && w[76] == P(20, 0) && w[77] == P(58, 1)
    ensures StepsOf(State(w, Cons(76, 0), Cons(52, 0)).(register := Cons(0, 0)), k + 1)
            == StepsOf(State(w + [P(12, 0), P(0, 0)], Cons(78, 0), Cons(0, 0)).(register := Cons(0, 0)), k)
  {
    Get13(w);
    Return13(w + [P(12, 0), P(76, 0)]);
    assert (w + [P(12, 0), P(76, 0)])[79 := P(0, 0)] == w + [P(12, 0), P(0, 0)];
    hide GetOf, AdvanceOf;
    OneMore(State(w, Cons(76, 0), Cons(52, 0)).(register := Cons(0, 0)),
            State(w + [P(12, 0), P(0, 0)], Cons(78, 0), Cons(0, 0)).(register := Cons(0, 0)), k);
  }

  /** The words that the run reads. */
  predicate IsCode(w: seq<Value>, f: Value) {
    && |w| >= 56
    && w[2] == P(0, 0) && w[3] == P(0, 0) && w[4] == P(8, 0) && w[6] == P(10, 0)
    && w[8] == Number(0) && w[9] == P(0, 3) && w[10] == Number(1) && w[11] == P(0, 3)
    && w[12] == f && w[18] == Number(0) && w[19] == P(0, 0) && w[20] == P(18, 0)
    && w[21] == P(0, 0) && w[22] == P(20, 0) && w[23] == P(0, 1) && w[24] == Number(7)
    && w[25] == P(26, 0) && w[26] == P(4, 0) && w[27] == P(28, 1) && w[28] == P(48, 0)
    && w[29] == P(30, 0) && w[30] == P(6, 0) && w[31] == P(32, 6) && w[32] == P(12, 0)
    && w[33] == P(34, 2) && w[34] == P(2, 0) && w[35] == P(36, 0) && w[36] == Number(1)
    && w[37] == P(38, 0) && w[38] == Number(0) && w[39] == P(40, 0) && w[40] == Number(3)
    && w[41] == P(42, 10) && w[42] == Number(1) && w[43] == P(44, 2) && w[44] == P(46, 0)
    && w[45] == P(54, 3) && w[46] == P(12, 0) && w[47] == P(0, 4) && w[48] == P(50, 0)
    && w[50] == Number(0) && w[51] == P(52, 0) && w[52] == Number(2) && w[53] == P(0, 1)
  }

  lemma {:induction false} WordsAreCode()
    ensures IsCode(Words(), P(2, 0))
  {
    DataWords();
    CodeWords();
    assert FixedIn(WORLD, Words());
    hide Word, Words, Fixed;
  }

  lemma {:induction false} Run1(w: seq<Value>) returns (r: seq<Value>)
    requires IsCode(w, P(2, 0))
    requires |w| == 56
    ensures StepsOf(State(w, Cons(22, 0), Cons(24, 0)), 13) == StepsOf(State(r, Cons(64, 0), Cons(32, 6)), 9)
    ensures IsCode(r, P(2, 0)) && |r| == 66 && r[64] == P(62, 0) && r[65] == P(58, 0)
    ensures r[56] == Number(7) && r[57] == P(22, 0) && r[62] == P(50, 0) && r[63] == P(58, 3)
    ensures r[58] == P(8, 0) && r[59] == P(56, 0)
  {
    hide StepOf, StepsOf, State;
    var w1 := w + [Number(7), P(22, 0)];
    Step1(w, 12);
    var w2 := w1 + [P(8, 0), P(56, 0)];
    Step2(w1, 11);
    var w3 := w2 + [P(48, 0), P(58, 0)];
    Step3(w2, 10);
    var w4 := w3 + [P(50, 0), P(58, 3), P(62, 0), P(58, 0)];
    Step4(w3, 9);
    r := w4;
  }

  lemma {:induction false} Run5(w: seq<Value>) returns (r: seq<Value>)
    requires IsCode(w, P(2, 0))
    requires |w| == 66 && w[58] == P(8, 0) && w[59] == P(56, 0)
    requires w[56] == Number(7) && w[57] == P(22, 0) && w[62] == P(50, 0) && w[63] == P(58, 3)
    requires w[64] == P(62, 0) && w[65] == P(58, 0)
    ensures StepsOf(State(w, Cons(64, 0), Cons(32, 6)), 9) == StepsOf(State(r, Cons(66, 0), Cons(36, 0)), 7)
    ensures IsCode(r, P(62, 0)) && |r| == 68 && r[58] == P(8, 0) && r[59] == P(56, 0)
    ensures r[56] == Number(7) && r[57] == P(22, 0) && r[62] == P(50, 0) && r[63] == P(58, 3)
    ensures r[66] == P(2, 0) && r[67] == P(58, 0)
  {
    hide StepOf, StepsOf, State;
    var w5 := w[12 := P(62, 0)];
    Step5(w, 8);
    var w6 := w5 + [P(2, 0), P(58, 0)];
    Step6(w5, 7);
    r := w6;
  }

  lemma {:induction false} Run7(w: seq<Value>) returns (r: seq<Value>)
    requires IsCode(w, P(62, 0)) && |w| == 68 && w[58] == P(8, 0) && w[59] == P(56, 0)
    requires w[56] == Number(7) && w[57] == P(22, 0) && w[62] == P(50, 0) && w[63] == P(58, 3)
    requires w[66] == P(2, 0) && w[67] == P(58, 0)
    ensures StepsOf(State(w, Cons(66, 0), Cons(36, 0)), 7) == StepsOf(State(r, Cons(70, 0), Cons(40, 0)), 5)
    ensures IsCode(r, P(62, 0)) && |r| == 72 && r[58] == P(8, 0) && r[59] == P(56, 0)
    ensures r[56] == Number(7) && r[57] == P(22, 0) && r[62] == P(50, 0) && r[63] == P(58, 3)
    ensures r[66] == P(2, 0) && r[67] == P(58, 0) && r[68] == Number(1) && r[69] == P(66, 0)
    ensures r[70] == Number(0) && r[71] == P(68, 0)
  {
    hide StepOf, StepsOf, State;
    var w7 := w + [Number(1), P(66, 0)];
    Step7(w, 6);
    var w8 := w7 + [Number(0), P(68, 0)];
    Step8(w7, 5);
    r := w8;
  }

  lemma {:induction false} Run9(w: seq<Value>) returns (r: seq<Value>)
    requires IsCode(w, P(62, 0))
    requires |w| == 72 && w[56] == Number(7) && w[57] == P(22, 0) && w[62] == P(50, 0) && w[63] == P(58, 3)
    requires w[58] == P(8, 0) && w[59] == P(56, 0) && w[66] == P(2, 0) && w[67] == P(58, 0)
    requires w[68] == Number(1) && w[69] == P(66, 0) && w[70] == Number(0) && w[71] == P(68, 0)
    ensures StepsOf(State(w, Cons(70, 0), Cons(40, 0)), 5) == StepsOf(State(r, Cons(56, 0), Cons(46, 0)), 2)
    ensures IsCode(r, P(62, 0)) && |r| == 76 && r[58] == P(72, 0) && r[59] == P(46, 0)
    ensures r[56] == Number(7) && r[57] == P(22, 0) && r[62] == P(50, 0) && r[63] == P(58, 3)
  {
    hide StepOf, StepsOf, State;
    var w9 := w + [P(2, 0), Number(1), P(72, 0), P(58, 0)];
    Step9(w, 4);
    var w10 := w9[58 := P(72, 0)];
    Step10(w9, 3);
    var w11 := w10[59 := P(46, 0)];
    Step11(w10, 2);
    r := w11;
  }

  lemma {:induction false} Run12(w: seq<Value>) returns (r: seq<Value>)
    requires IsCode(w, P(62, 0))
    requires |w| == 76 && w[56] == Number(7) && w[57] == P(22, 0) && w[58] == P(72, 0) && w[59] == P(46, 0)
    requires w[62] == P(50, 0) && w[63] == P(58, 3)
    ensures StepsOf(State(w, Cons(56, 0), Cons(46, 0)), 2)
            == StepsOf(State(r, Cons(78, 0), Cons(0, 0)).(register := Cons(0, 0)), 0)
    ensures |r| == 80 && r[2] == P(0, 0) && r[78] == P(12, 0)
  {
    hide StepOf, StepsOf, State;
    var w12 := w + [P(20, 0), P(58, 1)];
    Step12(w, 1);
    var w13 := w12 + [P(12, 0), P(0, 0)];
    Step13(w12, 0);
    r := w13;
  }

  /** The virtual machine ends the program with a symbol on the stack, which is not what the program means,
      although everything that generated code relies on is there. */
  lemma {:induction false} ExposedTestGoesWrong() returns (n: nat, s: Store)
    ensures IsLoaded(LOADED, PROGRAM, ENV) && IsExposed(TEST) && !Compilable(PROGRAM)
    ensures Eval(1, PROGRAM, ENV, GLOBALS) == Done(SEVEN, AFTER)
    ensures StepsOf(START, n) == Run.Ok(s) && NullOf(s) == Run.Ok(s.code)
    ensures CarOf(s, s.stack) == Run.Ok(P(SYMBOLS["f"], 0))
  {
    ProgramIsLoaded();
    MeansSeven();
    n, s := RunsToSymbol();
  }

  lemma {:induction false} RunsToSymbol() returns (n: nat, s: Store)
    ensures StepsOf(START, n) == Run.Ok(s) && NullOf(s) == Run.Ok(s.code)
    ensures CarOf(s, s.stack) == Run.Ok(P(SYMBOLS["f"], 0))
  {
    WordsAreCode();
    assert START == State(Words(), Cons(22, 0), Cons(24, 0));
    hide Words, StepsOf, IsCode;
    var w := Run1(Words());
    w := Run5(w);
    w := Run7(w);
    w := Run9(w);
    w := Run12(w);
    n, s := 13, State(w, Cons(78, 0), Cons(0, 0)).(register := Cons(0, 0));
    assert StepsOf(s, 0) == Run.Ok(s) by {
      NoSteps(s);
    }
  }

  lemma {:induction false} NoSteps(s: Store)
    ensures StepsOf(s, 0) == Run.Ok(s)
  {
  }
}
