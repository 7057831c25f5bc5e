/** The instructions of `vm/src/vm.rs` as functions on a heap that is never collected. */
module Machine {
  import opened Stores

  datatype VmError = ProcedureExpected | ArgumentCount

  /** The result of a part of an instruction: a value, an error with the state it leaves behind, or a
      state in which the source breaks one of its own assertions: it takes a number for a pointer,
      follows `NEVER`, or walks a list that never ends. */
  datatype Run<+T> = Ok(value: T) | Failed(store: Store, error: VmError) | Stuck {
    predicate IsFailure() {
      !Ok?
    }

    function PropagateFailure<U>(): Run<U>
      requires !Ok?
    {
      match this
      case Failed(s, e) => Failed(s, e)
      case Stuck => Stuck
    }

    function Extract(): T
      requires Ok?
    {
      value
    }
  }

  const PAIR: nat := 0
  const PROCEDURE: nat := 3
  const FRAME: nat := 1

  const CONSTANT: nat := 0
  const GET: nat := 1
  const SET: nat := 2
  const IF: nat := 3
  const CALL: nat := 4

  // ----- cells -----

  function CarOf(s: Store, c: Cons): Run<Value> {
    if IsCell(s, c) then Ok(Car(s, c)) else Stuck
  }

  function CdrOf(s: Store, c: Cons): Run<Value> {
    if IsCell(s, c) then Ok(Cdr(s, c)) else Stuck
  }

  function AsCons(v: Value): Run<Cons> {
    if v.Pointer? then Ok(v.cons) else Stuck
  }

  function AsNat(v: Value): Run<nat> {
    if v.Number? && v.n >= 0 then Ok(v.n) else Stuck
  }

  function ConsAtCar(s: Store, c: Cons): Run<Cons> {
    var v :- CarOf(s, c);
    AsCons(v)
  }

  function ConsAtCdr(s: Store, c: Cons): Run<Cons> {
    var v :- CdrOf(s, c);
    AsCons(v)
  }

  function NullOf(s: Store): Run<Cons> {
    ConsAtCar(s, s.no)
  }

  // A cell whose `car` is the mark of a moved cell would confuse the collector.
  function AllocateOf(s: Store, car: Value, cdr: Value): Run<Store> {
    if car.IsNever() then Stuck else Ok(Allocate(s, car, cdr))
  }

  function PushOf(s: Store, v: Value): Run<Store> {
    var s' :- AllocateOf(s, v, Pointer(s.stack.SetTag(PAIR)));
    Ok(s'.(stack := Fresh(s)))
  }

  function PopOf(s: Store): Run<(Value, Store)> {
    var v :- CarOf(s, s.stack);
    var c :- ConsAtCdr(s, s.stack);
    Ok((v, s.(stack := c)))
  }

  function TailOf(s: Store, list: Cons, index: nat): Run<Cons>
    decreases index
  {
    if index == 0 then Ok(list)
    else
      var next :- ConsAtCdr(s, list);
      TailOf(s, next, index - 1)
  }

  // ----- operands -----

  function OperandCons(s: Store): Run<Cons> {
    var v :- CarOf(s, s.code);
    match v
    case Pointer(c) => Ok(c)
    case Number(n) => if n < 0 then Stuck else TailOf(s, s.stack, n)
  }

  function ProcedureOf(s: Store): Run<Cons> {
    var c :- OperandCons(s);
    ConsAtCar(s, c)
  }

  // ----- simple instructions -----

  function ConstantOf(s: Store): Run<Store> {
    var v :- CarOf(s, s.code);
    PushOf(s, v)
  }

  function GetOf(s: Store): Run<Store> {
    var c :- OperandCons(s);
    var v :- CarOf(s, c);
    PushOf(s, v)
  }

  function SetOf(s: Store): Run<Store> {
    var c :- OperandCons(s);
    var (v, s') :- PopOf(s);
    if IsCell(s', c) && !v.IsNever() then Ok(SetCar(s', c, v)) else Stuck
  }

  /** A taken branch reuses the popped stack cell as the instruction before the branch. */
  function IfOf(s: Store): Run<Store> {
    var (v, s') :- PopOf(s);
    if v.Same(Pointer(s.no)) then Ok(s')
    else
      var branch :- CarOf(s', s'.code);
      Ok(SetCdr(s', s.stack, branch).(code := s.stack))
  }

  // ----- frames -----

  /** The nearest frame below `stack`: a cell whose `cdr` has the frame tag. */
  function FrameFrom(s: Store, stack: Cons, fuel: nat): Run<Cons>
    decreases fuel
  {
    if fuel == 0 then Stuck
    else
      var next :- ConsAtCdr(s, stack);
      if next.tag == FRAME then Ok(stack) else FrameFrom(s, next, fuel - 1)
  }

  // No list of distinct cells is longer than the heap.
  function ContinuationOf(s: Store): Run<Cons> {
    var frame :- FrameFrom(s, s.stack, |s.words|);
    ConsAtCar(s, frame)
  }

  /** Returning keeps the value on the top of the stack and restores what is below it and the code. */
  function AdvanceOf(s: Store): Run<Store> {
    var code :- ConsAtCdr(s, s.code);
    var nil :- NullOf(s);
    if !code.Same(nil) then Ok(s.(code := code))
    else
      var k :- ContinuationOf(s);
      var below :- CdrOf(s, k);
      if !IsCell(s, s.stack) then Stuck
      else
        var s' := SetCdr(s, s.stack, below);
        var caller :- ConsAtCar(s', k);
        var next :- ConsAtCdr(s', caller);
        Ok(s'.(code := next))
  }

  // ----- calls -----

  datatype Arity = Arity(count: nat, variadic: bool)

  function ParseArity(info: nat): Arity {
    Arity(info / 2, info % 2 == 1)
  }

  function BuildArity(a: Arity): nat {
    2 * a.count + if a.variadic then 1 else 0
  }

  lemma {:induction false} ArityRoundTrip(a: Arity, info: nat)
    ensures ParseArity(BuildArity(a)) == a
    ensures BuildArity(ParseArity(info)) == info
  {
  }

  /** Pops arguments into a list, the last one first. */
  function PopArguments(s: Store, n: nat, list: Cons): Run<(Store, Cons)>
    decreases n
  {
    if n == 0 then Ok((s, list))
    else
      var (v, s1) :- PopOf(s);
      var s2 :- AllocateOf(s1, v, Pointer(list.SetTag(PAIR)));
      PopArguments(s2, n - 1, Fresh(s1))
  }

  /** Moves the first element of the list in the register to the stack. */
  function ShiftOf(s: Store): Run<Store> {
    var v :- CarOf(s, s.register);
    var s' :- PushOf(s, v);
    var rest :- ConsAtCdr(s', s'.register);
    Ok(s'.(register := rest))
  }

  /** Pushes parameters from the list in the register. */
  function BindParameters(s: Store, n: nat): Run<Store>
    decreases n
  {
    if n == 0 then Ok(s)
    else
      var nil :- NullOf(s);
      if s.register.Same(nil) then Failed(s, ArgumentCount)
      else
        var s' :- ShiftOf(s);
        BindParameters(s', n - 1)
  }

  function BindRest(s: Store, variadic: bool): Run<Store> {
    if variadic then PushOf(s, Pointer(s.register))
    else
      var nil :- NullOf(s);
      if s.register.Same(nil) then Ok(s) else Failed(s, ArgumentCount)
  }

  function BindAll(s: Store, parameters: Arity): Run<Store> {
    var s' :- BindParameters(s, parameters.count);
    BindRest(s', parameters.variadic)
  }

  function ArgumentsOf(s: Store, a: Arity): Run<(Store, Cons)> {
    var (s1, list) :- if a.variadic then
        var (v, s1) :- PopOf(s);
        var list :- AsCons(v);
        Ok((s1, list))
      else
        var nil :- NullOf(s);
        Ok((s, nil));
    PopArguments(s1, a.count, list)
  }

  /** Makes the frame of the procedure in the code field for a call whose code was `code`. */
  function FrameOf(s: Store, code: Cons, tail: bool): Run<Store> {
    var (s1, k) :- if tail then
        var k :- ContinuationOf(s);
        Ok((s, k))
      else
        var s1 :- AllocateOf(s, Pointer(code), Pointer(s.stack));
        Ok((s1, Fresh(s)));
    var environment :- ConsAtCdr(s1, s1.code);
    var s2 :- AllocateOf(s1, Pointer(k), Pointer(environment.SetTag(FRAME)));
    var body :- ConsAtCar(s2, s2.code);
    Ok(s2.(stack := Fresh(s1), code := body))
  }

  /** Where a call leads: into a procedure, or to a primitive that the primitive set runs. */
  datatype Called = Entered(store: Store) | Primitive(store: Store, id: int)

  function EnterOf(s: Store, procedure: Cons, arguments: Arity, parameters: Arity, tail: bool): Run<Store> {
    var (s1, list) :- ArgumentsOf(s.(register := procedure), arguments);
    // The code field is an escape cell for the procedure while the frame is made.
    var s2 :- FrameOf(s1.(code := s1.register, register := list), s1.code, tail);
    BindAll(s2, parameters)
  }

  /** Spreads a list over the stack. */
  function SpreadList(s: Store, fuel: nat): Run<Store>
    decreases fuel
  {
    if fuel == 0 then Stuck
    else
      var nil :- NullOf(s);
      if s.register.Same(nil) then Ok(s)
      else
        var s' :- ShiftOf(s);
        SpreadList(s', fuel - 1)
  }

  function SpreadArgumentsOf(s: Store): Run<Store> {
    var (v, s1) :- PopOf(s);
    var list :- AsCons(v);
    SpreadList(s1.(register := list), |s1.words|)
  }

  function CallOf(s: Store, instruction: Cons, arity: nat): Run<Called> {
    var procedure :- ProcedureOf(s);
    var environment :- ConsAtCdr(s, procedure);
    if environment.tag != PROCEDURE then Failed(s, ProcedureExpected)
    else
      var arguments := ParseArity(arity);
      var nil :- NullOf(s);
      var tail := instruction.Same(nil);
      var code :- CarOf(s, procedure);
      match code
      case Pointer(c) =>
        var info :- CarOf(s, c);
        var n :- AsNat(info);
        var s' :- EnterOf(s, procedure, arguments, ParseArity(n), tail);
        Ok(Entered(s'))
      case Number(id) =>
        if arguments.variadic then
          var s' :- SpreadArgumentsOf(s);
          Ok(Primitive(s', id))
        else Ok(Primitive(s, id))
  }

  // ----- the primitives that generated code relies on -----

  const RIB: int := 0
  const CLOSE: int := 1
  const UNBIND: int := 2

  function MakeRib(s: Store, car: Value, cdr: Value, tag: nat): Run<Store> {
    var s' :- AllocateOf(s, car, cdr.SetTag(tag));
    PushOf(s', Pointer(Fresh(s)))
  }

  function RibOf(s: Store): Run<Store> {
    var (tag, s1) :- PopOf(s);
    var (cdr, s2) :- PopOf(s1);
    var (car, s3) :- PopOf(s2);
    if tag.Number? then MakeRib(s3, car, cdr, tag.n % 65536) else Stuck
  }

  /** A closure keeps the stack it is made on. */
  function CloseOf(s: Store): Run<Store> {
    var (v, s1) :- PopOf(s);
    var closure :- AsCons(v);
    var code :- CarOf(s1, closure);
    MakeRib(s1, code, Pointer(s1.stack), PROCEDURE)
  }

  /** Drops the value below the top. */
  function UnbindOf(s: Store): Run<Store> {
    var (x, s1) :- PopOf(s);
    var (_, s2) :- PopOf(s1);
    PushOf(s2, x)
  }

  // The other primitives are not part of this model.
  function OperateOf(s: Store, id: int): Run<Store> {
    if id == RIB then RibOf(s)
    else if id == CLOSE then CloseOf(s)
    else if id == UNBIND then UnbindOf(s)
    else Stuck
  }

  // ----- the start -----

  /** A program is a pair of the false value and code; the first frame returns to code that ends the run. */
  function InitializeOf(s: Store, program: Cons): Run<Store> {
    var no :- ConsAtCar(s, program);
    var code :- ConsAtCdr(s, program);
    var s1 := s.(no := no, code := code);
    var nil :- NullOf(s1);
    var s2 := Allocate(s1, Number(0), Pointer(nil.SetTag(PAIR)));
    var s3 := Allocate(s2, Pointer(Fresh(s1)), Pointer(nil.SetTag(PAIR)));
    var s4 := Allocate(s3, Pointer(Fresh(s2)), Pointer(nil.SetTag(FRAME)));
    Ok(s4.(stack := Fresh(s3), register := NEVER))
  }

  // ----- runs -----

  function ExecuteOf(s: Store, instruction: Cons): Run<Store> {
    var tag := instruction.tag;
    if tag == CONSTANT then ConstantOf(s)
    else if tag == GET then GetOf(s)
    else if tag == SET then SetOf(s)
    else if tag == IF then IfOf(s)
    else
      var called :- CallOf(s, instruction, tag - CALL);
      match called
      case Entered(s') => Ok(s')
      case Primitive(s', id) => OperateOf(s', id)
  }

  function StepOf(s: Store): Run<Store> {
    var instruction :- ConsAtCdr(s, s.code);
    var s' :- ExecuteOf(s, instruction);
    AdvanceOf(s')
  }

  /** Up to `n` steps; the program is over when the code is null. */
  function StepsOf(s: Store, n: nat): Run<Store>
    decreases n
  {
    if n == 0 then Ok(s)
    else
      var nil :- NullOf(s);
      if s.code.Same(nil) then Ok(s)
      else
        var s' :- StepOf(s);
        StepsOf(s', n - 1)
  }

  // ----- what a branch overwrites -----

  lemma {:induction false} TailLast(s: Store, c: Cons, n: nat)
    requires TailOf(s, c, n).Ok?
    ensures TailOf(s, c, n + 1) == ConsAtCdr(s, TailOf(s, c, n).value)
    decreases n
  {
    if n == 0 {
      assert forall d: Cons :: TailOf(s, d, 0) == Ok(d);
      assert TailOf(s, c, 1) == ConsAtCdr(s, c);
    } else {
      TailLast(s, ConsAtCdr(s, c).value, n - 1);
    }
  }

  lemma {:induction false} TailBefore(s: Store, c: Cons, n: nat, m: nat)
    requires TailOf(s, c, n).Ok? && m <= n
    ensures TailOf(s, c, m).Ok?
    decreases m
  {
    if m > 0 {
      TailBefore(s, ConsAtCdr(s, c).value, n - 1, m - 1);
    }
  }

  /** The first `n` steps down a list lead to the same cells. */
  ghost predicate SameTails(s: Store, s': Store, c: Cons, n: nat) {
    forall m :: 0 <= m <= n ==> TailOf(s', c, m) == TailOf(s, c, m)
  }

  // The cell is among the first `n` of a list.
  ghost predicate IsAmong(s: Store, c: Cons, n: nat, d: Cons) {
    exists m :: 0 <= m < n && TailOf(s, c, m).Ok? && TailOf(s, c, m).value.Same(d)
  }

  /** A taken branch changes a list, such as the environment that a closure has kept, exactly if the popped cell
      is one of its links, unless the branch is what the cell linked to. */
  lemma {:induction false} BranchKeepsIff(s: Store, c: Cons, n: nat)
    requires IfOf(s).Ok? && !Car(s, s.stack).Same(Pointer(s.no)) && TailOf(s, c, n).Ok?
    ensures SameTails(s, IfOf(s).value, c, n)
            <==> !IsAmong(s, c, n, s.stack) || Car(s, s.code).Same(Cdr(s, s.stack))
  {
    hide TailOf;
    var s', same := IfOf(s).value, Car(s, s.code).Same(Cdr(s, s.stack));
    if same || !IsAmong(s, c, n, s.stack) {
      forall m | 0 <= m <= n ensures TailOf(s', c, m) == TailOf(s, c, m) {
        TailsStay(s, s', c, n, m);
      }
    } else {
      var m :| 0 <= m < n && TailOf(s, c, m).Ok? && TailOf(s, c, m).value.Same(s.stack);
      TailBefore(s, c, n, m + 1);
      TailLast(s, c, m);
      if TailOf(s', c, m) == TailOf(s, c, m) {
        TailLast(s', c, m);
      }
    }
  }

  lemma {:induction false} TailsStay(s: Store, s': Store, c: Cons, n: nat, m: nat)
    requires TailOf(s, c, n).Ok? && m <= n && |s'.words| == |s.words|
    requires forall d: Cons :: IsCell(s, d) && s'.words[d.index + 1] != s.words[d.index + 1] ==> !IsAmong(s, c, n, d)
    ensures TailOf(s', c, m) == TailOf(s, c, m)
    decreases m
  {
    if m > 0 {
      TailsStay(s, s', c, n, m - 1);
      TailBefore(s, c, n, m - 1);
      TailBefore(s, c, n, m);
      TailLast(s, c, m - 1);
      TailLast(s', c, m - 1);
      assert IsAmong(s, c, n, TailOf(s, c, m - 1).value);
    }
  }

  /** Only binding can fail with an error; popping the arguments and making the frame cannot. */
  lemma {:induction false} PopArgumentsNeverFails(s: Store, n: nat, list: Cons)
    ensures !PopArguments(s, n, list).Failed?
    decreases n
  {
    if n > 0 && PopOf(s).Ok? {
      var (v, s1) := PopOf(s).value;
      if AllocateOf(s1, v, Pointer(list.SetTag(PAIR))).Ok? {
        PopArgumentsNeverFails(Allocate(s1, v, Pointer(list.SetTag(PAIR))), n - 1, Fresh(s1));
      }
    }
  }

  lemma {:induction false} FrameFromNeverFails(s: Store, stack: Cons, fuel: nat)
    ensures !FrameFrom(s, stack, fuel).Failed?
    decreases fuel
  {
    if fuel > 0 && ConsAtCdr(s, stack).Ok? {
      FrameFromNeverFails(s, ConsAtCdr(s, stack).value, fuel - 1);
    }
  }

  lemma {:induction false} TailNeverFails(s: Store, list: Cons, index: nat)
    ensures !TailOf(s, list, index).Failed?
    decreases index
  {
    if index > 0 && ConsAtCdr(s, list).Ok? {
      TailNeverFails(s, ConsAtCdr(s, list).value, index - 1);
    }
  }

  lemma {:induction false} SpreadNeverFails(s: Store, fuel: nat)
    ensures !SpreadList(s, fuel).Failed?
    decreases fuel
  {
    if fuel > 0 && ShiftOf(s).Ok? {
      SpreadNeverFails(ShiftOf(s).value, fuel - 1);
    }
  }

  lemma {:induction false} ProcedureNeverFails(s: Store)
    ensures !ProcedureOf(s).Failed?
  {
    OperandNeverFails(s);
  }

  lemma {:induction false} SpreadArgumentsNeverFail(s: Store)
    ensures !SpreadArgumentsOf(s).Failed?
  {
    if PopOf(s).Ok? {
      var (v, s1) := PopOf(s).value;
      if v.Pointer? {
        SpreadNeverFails(s1.(register := v.cons), |s1.words|);
      }
    }
  }

  lemma {:induction false} OperandNeverFails(s: Store)
    ensures !OperandCons(s).Failed?
  {
    if IsCell(s, s.code) && Car(s, s.code).Number? && Car(s, s.code).n >= 0 {
      TailNeverFails(s, s.stack, Car(s, s.code).n);
    }
  }

  /** The only errors are those of calls. */
  lemma {:induction false} SimpleInstructionsNeverFail(s: Store)
    ensures !ConstantOf(s).Failed? && !GetOf(s).Failed? && !SetOf(s).Failed? && !IfOf(s).Failed?
  {
    hide TailOf;
    OperandNeverFails(s);
  }

  lemma {:induction false} AdvanceNeverFails(s: Store)
    ensures !AdvanceOf(s).Failed?
  {
    hide FrameFrom;
    FrameFromNeverFails(s, s.stack, |s.words|);
  }

  lemma {:induction false} PrimitivesNeverFail(s: Store, id: int)
    ensures !OperateOf(s, id).Failed?
  {
  }
}
