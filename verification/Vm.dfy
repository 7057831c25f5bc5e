/** The virtual machine of `vm/src/vm.rs` on a memory that may collect garbage at any allocation. Every
    instruction ends in a state isomorphic to the one the machine without a collector reaches. */
module Vms {
  import opened Stores
  import opened Machine
  import opened Memories
  import Collection

  /** What an instruction reports: an error of the machine, or a heap full of live cells. */
  datatype Report = Success | Error(error: VmError) | HeapExhausted

  /** The memory holds what the machine without a collector computed, unless the last collection, or creation,
      left every cell of a space live. */
  ghost predicate Agrees(m: Memory, r: Report, expected: Run<Store>)
    reads m, m.heap
  {
    match r
    case Success => m.Valid() && expected == Run.Ok(m.model)
    case Error(e) => m.Valid() && expected == Failed(m.model, e)
    case HeapExhausted => 2 * m.live == m.SpaceSize()
  }

  method OperandCons(m: Memory) returns (c: Cons)
    requires m.Valid() && Machine.OperandCons(m.model).Ok?
    ensures ConsMoves(m.loc, Machine.OperandCons(m.model).value, c)
  {
    var code := m.Code();
    var v := m.Car(code, m.model.code);
    match v
    case Pointer(d) => c := d;
    case Number(n) =>
      var stack := m.Stack();
      c := m.Tail(stack, n, m.model.stack);
  }

  method Constant(m: Memory) returns (r: Report)
    requires m.Valid() && ConstantOf(m.model).Ok?
    modifies m, m.heap
    ensures Agrees(m, r, ConstantOf(old(m.model)))
  {
    var code := m.Code();
    ghost var a := CarOf(m.model, m.model.code).value;
    var v := m.Car(code, m.model.code);
    var pushed := m.Push(v, a);
    r := if pushed.Ok? then Success else HeapExhausted;
  }

  method Get(m: Memory) returns (r: Report)
    requires m.Valid() && GetOf(m.model).Ok?
    modifies m, m.heap
    ensures Agrees(m, r, GetOf(old(m.model)))
  {
    var c := OperandCons(m);
    ghost var a := Machine.OperandCons(m.model).value;
    var v := m.Car(c, a);
    var pushed := m.Push(v, Car(m.model, a));
    r := if pushed.Ok? then Success else HeapExhausted;
  }

  method Set(m: Memory) returns (r: Report)
    requires m.Valid() && SetOf(m.model).Ok?
    modifies m, m.heap
    ensures r == Success && Agrees(m, r, SetOf(old(m.model)))
  {
    var c := OperandCons(m);
    ghost var a, v := Machine.OperandCons(m.model).value, PopOf(m.model).value.0;
    var value := m.Pop();
    m.SetCar(c, value, a, v);
    r := Success;
  }

  method If(m: Memory) returns (r: Report)
    requires m.Valid() && IfOf(m.model).Ok?
    modifies m, m.heap
    ensures r == Success && Agrees(m, r, IfOf(old(m.model)))
  {
    hide Memory.Valid;
    var cons := m.Stack();
    ghost var a, v := m.model.stack, PopOf(m.model).value.0;
    var value := m.Pop();
    var no := m.False();
    m.SameInModel(v, value, Pointer(m.model.no), Pointer(no));
    if !value.Same(Pointer(no)) {
      var code := m.Code();
      var branch := m.Car(code, m.model.code);
      m.SetCdr(cons, branch, a, Car(m.model, m.model.code));
      m.SetCode(cons, a);
    }
    r := Success;
  }

  method Continuation(m: Memory) returns (k: Cons)
    requires m.Valid() && ContinuationOf(m.model).Ok?
    ensures ConsMoves(m.loc, ContinuationOf(m.model).value, k)
  {
    hide Memory.Valid;
    var stack := m.Stack();
    ghost var a, fuel := m.model.stack, |m.model.words|;
    var next := m.CdrCons(stack, a);
    while next.tag != FRAME
      invariant fuel > 0 && ConsMoves(m.loc, a, stack)
      invariant FrameFrom(m.model, m.model.stack, |m.model.words|) == FrameFrom(m.model, a, fuel)
      invariant FrameFrom(m.model, a, fuel).Ok?
      invariant ConsMoves(m.loc, ConsAtCdr(m.model, a).value, next)
      decreases fuel
    {
      stack := next;
      a := ConsAtCdr(m.model, a).value;
      fuel := fuel - 1;
      next := m.CdrCons(stack, a);
    }
    k := m.CarCons(stack, a);
  }

  method AdvanceCode(m: Memory) returns (r: Report)
    requires m.Valid() && AdvanceOf(m.model).Ok?
    modifies m, m.heap
    ensures r == Success && Agrees(m, r, AdvanceOf(old(m.model)))
  {
    hide Memory.Valid;
    var instruction := m.Code();
    ghost var a := ConsAtCdr(m.model, m.model.code).value;
    var code := m.CdrCons(instruction, m.model.code);
    var nil := m.Null();
    m.SameInModel(Pointer(a), Pointer(code), Pointer(NullOf(m.model).value), Pointer(nil));
    if code.Same(nil) {
      ghost var b := ContinuationOf(m.model).value;
      var k := Continuation(m);
      // Keep a value at the top of a stack.
      var below := m.Cdr(k, b);
      var top := m.Stack();
      m.SetCdr(top, below, m.model.stack, Cdr(m.model, b));
      ghost var d := ConsAtCar(m.model, b).value;
      var caller := m.CarCons(k, b);
      a := ConsAtCdr(m.model, d).value;
      code := m.CdrCons(caller, d);
    }
    m.SetCode(code, a);
    r := Success;
  }

  // ----- calls -----

  method PopArgumentList(m: Memory, n: nat, list: Cons, ghost a: Cons) returns (r: Result<Cons>)
    requires m.Valid() && ConsMoves(m.loc, a, list) && PopArguments(m.model, n, a).Ok?
    modifies m, m.heap
    ensures r.OutOfMemory? ==> 2 * m.live == m.SpaceSize()
    ensures r.Ok? ==> (
      && m.Valid() && PopArguments(old(m.model), n, a).value.0 == m.model
      && ConsMoves(m.loc, PopArguments(old(m.model), n, a).value.1, r.value))
  {
    hide Memory.Valid;
    var c := list;
    ghost var b := a;
    var i := n;
    while i > 0
      invariant m.Valid() && ConsMoves(m.loc, b, c)
      invariant PopArguments(old(m.model), n, a) == PopArguments(m.model, i, b)
    {
      ghost var s := m.model;
      var v := m.Pop();
      ghost var w := PopOf(s).value.0;
      ghost var s1 := m.model;
      c :- m.Allocate(v, Pointer(c.SetTag(PAIR)), w, Pointer(b.SetTag(PAIR)));
      b := Fresh(s1);
      i := i - 1;
    }
    r := Result.Ok(c);
  }

  method MakeFrame(m: Memory, code: Cons, ghost a: Cons, tail: bool) returns (r: Result<()>)
    requires m.Valid() && ConsMoves(m.loc, a, code) && FrameOf(m.model, a, tail).Ok?
    modifies m, m.heap
    ensures r.OutOfMemory? ==> 2 * m.live == m.SpaceSize()
    ensures r.Ok? ==> m.Valid() && FrameOf(old(m.model), a, tail) == Run.Ok(m.model)
  {
    hide Memory.Valid, Collection.Descends, FrameFrom;
    var k;
    ghost var b;
    if tail {
      b := ContinuationOf(m.model).value;
      k := Continuation(m);
    } else {
      var stack := m.Stack();
      b := Fresh(m.model);
      k :- m.Allocate(Pointer(code), Pointer(stack), Pointer(a), Pointer(m.model.stack));
    }
    ghost var s1 := m.model;
    var procedure := m.Code();
    ghost var e := ConsAtCdr(s1, s1.code).value;
    var environment := m.CdrCons(procedure, s1.code);
    var stack :- m.Allocate(Pointer(k), Pointer(environment.SetTag(FRAME)), Pointer(b), Pointer(e.SetTag(FRAME)));
    ghost var s2 := m.model;
    m.SetStack(stack, Fresh(s1));
    procedure := m.Code();
    var body := m.CarCons(procedure, m.model.code);
    m.SetCode(body, ConsAtCar(s2, s2.code).value);
    r := Result.Ok(());
  }

  method RegisterIsNull(m: Memory) returns (b: bool)
    requires m.Valid() && NullOf(m.model).Ok?
    ensures b <==> m.model.register.Same(NullOf(m.model).value)
  {
    hide Memory.Valid;
    var list := m.Register();
    var nil := m.Null();
    m.SameInModel(Pointer(m.model.register), Pointer(list), Pointer(NullOf(m.model).value), Pointer(nil));
    b := list.Same(nil);
  }

  method Shift(m: Memory) returns (r: Result<()>)
    requires m.Valid() && ShiftOf(m.model).Ok?
    modifies m, m.heap
    ensures r.OutOfMemory? ==> 2 * m.live == m.SpaceSize()
    ensures r.Ok? ==> m.Valid() && ShiftOf(old(m.model)) == Run.Ok(m.model)
  {
    hide Memory.Valid;
    var list := m.Register();
    ghost var v := Car(m.model, m.model.register);
    var value := m.Car(list, m.model.register);
    var _ :- m.Push(value, v);
    list := m.Register();
    ghost var a := ConsAtCdr(m.model, m.model.register).value;
    var rest := m.CdrCons(list, m.model.register);
    m.SetRegister(rest, a);
    r := Result.Ok(());
  }

  method Bind(m: Memory, n: nat) returns (r: Report)
    requires m.Valid() && !BindParameters(m.model, n).Stuck?
    modifies m, m.heap
    ensures Agrees(m, r, BindParameters(old(m.model), n))
  {
    hide Memory.Valid;
    var i := n;
    while i > 0
      invariant m.Valid() && BindParameters(old(m.model), n) == BindParameters(m.model, i)
    {
      var isNull := RegisterIsNull(m);
      if isNull {
        return Error(ArgumentCount);
      }
      var shifted := Shift(m);
      if shifted.OutOfMemory? {
        return HeapExhausted;
      }
      i := i - 1;
    }
    r := Success;
  }

  method BindRestList(m: Memory, variadic: bool) returns (r: Report)
    requires m.Valid() && !BindRest(m.model, variadic).Stuck?
    modifies m, m.heap
    ensures Agrees(m, r, BindRest(old(m.model), variadic))
  {
    hide Memory.Valid;
    if variadic {
      var list := m.Register();
      var pushed := m.Push(Pointer(list), Pointer(m.model.register));
      r := if pushed.Ok? then Success else HeapExhausted;
    } else {
      var isNull := RegisterIsNull(m);
      r := if isNull then Success else Error(ArgumentCount);
    }
  }

  method Spread(m: Memory, ghost fuel: nat) returns (r: Report)
    requires m.Valid() && SpreadList(m.model, fuel).Ok?
    modifies m, m.heap
    ensures r == Success || r == HeapExhausted
    ensures Agrees(m, r, SpreadList(old(m.model), fuel))
  {
    hide Memory.Valid;
    ghost var n := fuel;
    var isNull := RegisterIsNull(m);
    while !isNull
      invariant m.Valid() && SpreadList(old(m.model), fuel) == SpreadList(m.model, n)
      invariant n > 0 && SpreadList(m.model, n).Ok?
      invariant isNull <==> m.model.register.Same(NullOf(m.model).value)
      decreases n
    {
      var shifted := Shift(m);
      if shifted.OutOfMemory? {
        return HeapExhausted;
      }
      n := n - 1;
      isNull := RegisterIsNull(m);
    }
    r := Success;
  }

  method PopArgumentsOf(m: Memory, a: Arity) returns (r: Result<Cons>)
    requires m.Valid() && ArgumentsOf(m.model, a).Ok?
    modifies m, m.heap
    ensures r.OutOfMemory? ==> 2 * m.live == m.SpaceSize()
    ensures r.Ok? ==> (
      && m.Valid() && ArgumentsOf(old(m.model), a).value.0 == m.model
      && ConsMoves(m.loc, ArgumentsOf(old(m.model), a).value.1, r.value))
  {
    hide Memory.Valid;
    var list;
    ghost var b;
    if a.variadic {
      b := PopOf(m.model).value.0.cons;
      var v := m.Pop();
      list := v.cons;
    } else {
      b := NullOf(m.model).value;
      list := m.Null();
    }
    r := PopArgumentList(m, a.count, list, b);
  }

  method Enter(m: Memory, procedure: Cons, ghost a: Cons, arguments: Arity, parameters: Arity, tail: bool)
    returns (r: Report)
    requires m.Valid() && ConsMoves(m.loc, a, procedure)
    requires !EnterOf(m.model, a, arguments, parameters, tail).Stuck?
    modifies m, m.heap
    ensures Agrees(m, r, EnterOf(old(m.model), a, arguments, parameters, tail))
  {
    hide Memory.Valid, PopArguments, FrameOf, ContinuationOf, BindParameters, BindRest;
    EnterIsStuckEarly(m.model, a, arguments, parameters, tail);
    m.SetRegister(procedure, a);
    ghost var l := ArgumentsOf(m.model, arguments).value.1;
    var popped := PopArgumentsOf(m, arguments);
    if popped.OutOfMemory? {
      return HeapExhausted;
    }
    // Use a `code` field as an escape cell for a procedure.
    var code := m.Code();
    ghost var c := m.model.code;
    var register := m.Register();
    m.SetCode(register, m.model.register);
    m.SetRegister(popped.value, l);
    var framed := MakeFrame(m, code, c, tail);
    if framed.OutOfMemory? {
      return HeapExhausted;
    }
    r := Bind(m, parameters.count);
    if r == Success {
      r := BindRestList(m, parameters.variadic);
    }
  }

  /** What a call leaves to the caller: nothing, or a primitive to run. */
  datatype Called = InProcedure | AtPrimitive(id: int)

  ghost predicate CallAgrees(m: Memory, r: Report, called: Called, expected: Run<Machine.Called>)
    reads m, m.heap
  {
    match r
    case Success => m.Valid()
      && expected == Run.Ok(if called.InProcedure? then Entered(m.model) else Primitive(m.model, called.id))
    case Error(e) => m.Valid() && expected == Failed(m.model, e)
    case HeapExhausted => 2 * m.live == m.SpaceSize()
  }

  method Procedure(m: Memory) returns (c: Cons)
    requires m.Valid() && ProcedureOf(m.model).Ok?
    ensures ConsMoves(m.loc, ProcedureOf(m.model).value, c)
  {
    hide Memory.Valid;
    ghost var a := Machine.OperandCons(m.model).value;
    var operand := OperandCons(m);
    c := m.CarCons(operand, a);
  }

  method Call(m: Memory, instruction: Cons, ghost a: Cons, arity: nat) returns (r: Report, called: Called)
    requires m.Valid() && ConsMoves(m.loc, a, instruction) && !CallOf(m.model, a, arity).Stuck?
    modifies m, m.heap
    ensures CallAgrees(m, r, called, CallOf(old(m.model), a, arity))
  {
    hide Memory.Valid, EnterOf, SpreadArgumentsOf, ProcedureOf;
    called := InProcedure;
    ProcedureNeverFails(m.model);
    SpreadArgumentsNeverFail(m.model);
    ghost var s, p := m.model, ProcedureOf(m.model).value;
    var procedure := Procedure(m);
    var environment := m.CdrCons(procedure, p);
    if environment.tag != PROCEDURE {
      return Error(ProcedureExpected), called;
    }
    var arguments := ParseArity(arity);
    var nil := m.Null();
    m.SameInModel(Pointer(a), Pointer(instruction), Pointer(NullOf(s).value), Pointer(nil));
    var code := m.Car(procedure, p);
    match code
    case Pointer(c) =>
      var info := m.Car(c, Car(s, p).cons);
      r := Enter(m, procedure, p, arguments, ParseArity(info.n), instruction.Same(nil));
    case Number(id) =>
      called := AtPrimitive(id);
      r := Success;
      if arguments.variadic {
        r := SpreadArguments(m);
      }
  }

  method SpreadArguments(m: Memory) returns (r: Report)
    requires m.Valid() && SpreadArgumentsOf(m.model).Ok?
    modifies m, m.heap
    ensures r == Success || r == HeapExhausted
    ensures Agrees(m, r, SpreadArgumentsOf(old(m.model)))
  {
    hide Memory.Valid, SpreadList;
    ghost var a := PopOf(m.model).value.0.cons;
    var v := m.Pop();
    m.SetRegister(v.cons, a);
    r := Spread(m, |m.model.words|);
  }

  // ----- primitives -----

  method Rib(m: Memory) returns (r: Result<()>)
    requires m.Valid() && RibOf(m.model).Ok?
    modifies m, m.heap
    ensures r.OutOfMemory? ==> 2 * m.live == m.SpaceSize()
    ensures r.Ok? ==> m.Valid() && RibOf(old(m.model)) == Run.Ok(m.model)
  {
    hide Memory.Valid;
    ghost var d := PopOf(m.model).value.0;
    var tag := m.Pop();
    ghost var c := PopOf(m.model).value.0;
    var cdr := m.Pop();
    ghost var b := PopOf(m.model).value.0;
    var car := m.Pop();
    r := PushRib(m, car, cdr, tag.n % 65536, b, c);
  }

  method PushRib(m: Memory, car: Value, cdr: Value, tag: nat, ghost a: Value, ghost b: Value)
    returns (r: Result<()>)
    requires m.Valid() && MakeRib(m.model, a, b, tag).Ok?
    requires ValueMoves(m.loc, a, car) && ValueMoves(m.loc, b, cdr)
    modifies m, m.heap
    ensures r.OutOfMemory? ==> 2 * m.live == m.SpaceSize()
    ensures r.Ok? ==> m.Valid() && MakeRib(old(m.model), a, b, tag) == Run.Ok(m.model)
  {
    hide Memory.Valid;
    var rib :- m.Allocate(car, cdr.SetTag(tag), a, b.SetTag(tag));
    var _ :- m.Push(Pointer(rib), Pointer(Fresh(old(m.model))));
    r := Result.Ok(());
  }

  method Close(m: Memory) returns (r: Result<()>)
    requires m.Valid() && CloseOf(m.model).Ok?
    modifies m, m.heap
    ensures r.OutOfMemory? ==> 2 * m.live == m.SpaceSize()
    ensures r.Ok? ==> m.Valid() && CloseOf(old(m.model)) == Run.Ok(m.model)
  {
    hide Memory.Valid;
    ghost var a := PopOf(m.model).value.0.cons;
    var closure := m.Pop();
    var code := m.Car(closure.cons, a);
    var stack := m.Stack();
    r := PushRib(m, code, Pointer(stack), PROCEDURE, Car(m.model, a), Pointer(m.model.stack));
  }

  method Unbind(m: Memory) returns (r: Result<()>)
    requires m.Valid() && UnbindOf(m.model).Ok?
    modifies m, m.heap
    ensures r.OutOfMemory? ==> 2 * m.live == m.SpaceSize()
    ensures r.Ok? ==> m.Valid() && UnbindOf(old(m.model)) == Run.Ok(m.model)
  {
    hide Memory.Valid;
    ghost var a := PopOf(m.model).value.0;
    var x := m.Pop();
    var _ := m.Pop();
    r := m.Push(x, a);
  }

  method Operate(m: Memory, id: int) returns (r: Report)
    requires m.Valid() && OperateOf(m.model, id).Ok?
    modifies m, m.heap
    ensures r == Success || r == HeapExhausted
    ensures Agrees(m, r, OperateOf(old(m.model), id))
  {
    hide Memory.Valid, RibOf, CloseOf, UnbindOf;
    var done;
    if id == RIB {
      done := Rib(m);
    } else if id == CLOSE {
      done := Close(m);
    } else {
      done := Unbind(m);
    }
    r := if done.Ok? then Success else HeapExhausted;
  }

  // ----- the start -----

  /** Sets the roots of a decoded program and makes its first frame. */
  method Initialize(m: Memory, program: Cons, ghost a: Cons) returns (r: Result<()>)
    requires m.Valid() && ConsMoves(m.loc, a, program) && InitializeOf(m.model, a).Ok? && |m.model.words| % 2 == 0
    modifies m, m.heap
    ensures r.OutOfMemory? ==> 2 * m.live == m.SpaceSize()
    ensures r.Ok? ==> m.Valid() && InitializeOf(old(m.model), a) == Run.Ok(m.model)
  {
    hide Memory.Valid, Collection.Descends;
    ghost var no', code' := ConsAtCar(m.model, a).value, ConsAtCdr(m.model, a).value;
    var no := m.CarCons(program, a);
    var code := m.CdrCons(program, a);
    m.SetFalse(no, no');
    m.SetCode(code, code');
    ghost var s1, nil' := m.model, NullOf(m.model).value;
    var nil := m.Null();
    var codes :- m.Allocate(Number(0), Pointer(nil.SetTag(PAIR)), Number(0), Pointer(nil'.SetTag(PAIR)));
    ghost var s2 := m.model;
    nil := m.Null();
    var continuation :- m.Allocate(Pointer(codes), Pointer(nil.SetTag(PAIR)),
                                   Pointer(Fresh(s1)), Pointer(nil'.SetTag(PAIR)));
    ghost var s3 := m.model;
    nil := m.Null();
    var stack :- m.Allocate(Pointer(continuation), Pointer(nil.SetTag(FRAME)),
                            Pointer(Fresh(s2)), Pointer(nil'.SetTag(FRAME)));
    m.SetStack(stack, Fresh(s3));
    m.SetRegister(NEVER, NEVER);
    r := Result.Ok(());
  }

  // ----- runs -----

  method Execute(m: Memory, instruction: Cons, ghost a: Cons) returns (r: Report)
    requires m.Valid() && ConsMoves(m.loc, a, instruction) && !ExecuteOf(m.model, a).Stuck?
    modifies m, m.heap
    ensures Agrees(m, r, ExecuteOf(old(m.model), a))
  {
    hide Memory.Valid, ConstantOf, GetOf, SetOf, IfOf, CallOf, OperateOf;
    SimpleInstructionsNeverFail(m.model);
    if instruction.tag == CONSTANT {
      r := Constant(m);
    } else if instruction.tag == GET {
      r := Get(m);
    } else if instruction.tag == SET {
      r := Set(m);
    } else if instruction.tag == IF {
      r := If(m);
    } else {
      var called;
      r, called := Call(m, instruction, a, instruction.tag - CALL);
      if r == Success && called.AtPrimitive? {
        PrimitivesNeverFail(m.model, called.id);
        r := Operate(m, called.id);
      }
    }
  }

  method Step(m: Memory) returns (r: Report)
    requires m.Valid() && !StepOf(m.model).Stuck?
    modifies m, m.heap
    ensures Agrees(m, r, StepOf(old(m.model)))
  {
    hide Memory.Valid, ExecuteOf, AdvanceOf;
    var code := m.Code();
    ghost var a := ConsAtCdr(m.model, m.model.code).value;
    var instruction := m.CdrCons(code, m.model.code);
    r := Execute(m, instruction, a);
    if r == Success {
      AdvanceNeverFails(m.model);
      r := AdvanceCode(m);
    }
  }

  /** A run of any length ends, whenever and however often garbage is collected, in a state isomorphic to
      the one a machine without a collector ends in. */
  method RunFor(m: Memory, n: nat) returns (r: Report)
    requires m.Valid() && !StepsOf(m.model, n).Stuck?
    modifies m, m.heap
    ensures Agrees(m, r, StepsOf(old(m.model), n))
  {
    hide Memory.Valid, StepOf;
    var i := n;
    r := Success;
    while i > 0
      invariant r == Success && m.Valid() && StepsOf(old(m.model), n) == StepsOf(m.model, i)
    {
      var code := m.Code();
      var nil := m.Null();
      m.SameInModel(Pointer(m.model.code), Pointer(code), Pointer(NullOf(m.model).value), Pointer(nil));
      if code.Same(nil) {
        return Success;
      }
      r := Step(m);
      if r != Success {
        return r;
      }
      i := i - 1;
    }
  }

  /** The machine without a collector gets to null code, or fails, within `n` steps. */
  predicate Ends(s: Store, n: nat) {
    var r := StepsOf(s, n);
    r.Failed? || (r.Ok? && NullOf(r.value).Ok? && r.value.code.Same(NullOf(r.value).value))
  }

  /** Runs a program to its end. */
  method RunToEnd(m: Memory, ghost n: nat) returns (r: Report)
    requires m.Valid() && Ends(m.model, n)
    modifies m, m.heap
    ensures Agrees(m, r, StepsOf(old(m.model), n))
  {
    hide Memory.Valid, StepOf;
    ghost var i := n;
    r := Success;
    while true
      invariant r == Success && m.Valid() && StepsOf(old(m.model), n) == StepsOf(m.model, i)
      decreases i
    {
      var code := m.Code();
      var nil := m.Null();
      m.SameInModel(Pointer(m.model.code), Pointer(code), Pointer(NullOf(m.model).value), Pointer(nil));
      if code.Same(nil) {
        return Success;
      }
      r := Step(m);
      if r != Success {
        return r;
      }
      i := i - 1;
    }
  }

  /** Entering a procedure gets stuck or goes on to binding. */
  lemma {:induction false} EnterIsStuckEarly(s: Store, procedure: Cons, arguments: Arity, parameters: Arity, tail: bool)
    requires !EnterOf(s, procedure, arguments, parameters, tail).Stuck?
    ensures ArgumentsOf(s.(register := procedure), arguments).Ok?
    ensures var (s1, list) := ArgumentsOf(s.(register := procedure), arguments).value;
            FrameOf(s1.(code := s1.register, register := list), s1.code, tail).Ok?
  {
    ArgumentsNeverFail(s.(register := procedure), arguments);
    var r := ArgumentsOf(s.(register := procedure), arguments);
    if r.Ok? {
      var (s1, list) := r.value;
      FrameNeverFails(s1.(code := s1.register, register := list), s1.code, tail);
    }
  }

  lemma {:induction false} ArgumentsNeverFail(s: Store, a: Arity)
    ensures !ArgumentsOf(s, a).Failed?
  {
    if a.variadic {
      if PopOf(s).Ok? {
        var (v, s1) := PopOf(s).value;
        if v.Pointer? {
          PopArgumentsNeverFails(s1, a.count, v.cons);
        }
      }
    } else if NullOf(s).Ok? {
      PopArgumentsNeverFails(s, a.count, NullOf(s).value);
    }
  }

  lemma {:induction false} FrameNeverFails(s: Store, code: Cons, tail: bool)
    ensures !FrameOf(s, code, tail).Failed?
  {
    FrameFromNeverFails(s, s.stack, |s.words|);
  }
}
