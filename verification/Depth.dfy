/** The depth of the chain of continuations in runs of the virtual machine of `vm/src/vm.rs`. */
module Depth {
  import opened Stores
  import opened Machine

  // ----- chains -----

  // A cell of a stack; each is older than the one above it.
  predicate IsLink(words: seq<Value>, i: nat) {
    i % 2 == 0 && i + 1 < |words| && words[i + 1].Pointer?
  }

  predicate IsFrame(words: seq<Value>, i: nat) {
    IsLink(words, i) && words[i + 1].cons.tag == FRAME
  }

  /** The frame below the top `i` of a stack. */
  function Frame(words: seq<Value>, i: nat): (f: int)
    ensures f <= i
    ensures f >= 0 ==> IsLink(words, i) && IsFrame(words, f)
    decreases i
  {
    if !IsLink(words, i) then -1
    else if IsFrame(words, i) then i
    else if words[i + 1].cons.index < i then Frame(words, words[i + 1].cons.index) else -1
  }

  /** The number of values above the frame. */
  function Height(words: seq<Value>, i: nat): nat
    decreases i
  {
    if IsLink(words, i) && !IsFrame(words, i) && words[i + 1].cons.index < i
    then 1 + Height(words, words[i + 1].cons.index) else 0
  }

  /** The number of returns from a stack to the continuation `bottom`. */
  function Returns(words: seq<Value>, i: nat, bottom: nat): (d: int)
    ensures d >= 0 ==> Frame(words, i) >= 0
    decreases i
  {
    var f := Frame(words, i);
    if f < 0 || !words[f].Pointer? then -1
    else
      var k := words[f].cons.index;
      if k == bottom && k < f then 0
      else if k < f && IsLink(words, k) && words[k + 1].cons.index < k
           && Returns(words, words[k + 1].cons.index, bottom) >= 0
      then 1 + Returns(words, words[k + 1].cons.index, bottom) else -1
  }

  /** The chain of continuations above `bottom` has `d` links, and the top frame has `n` values above it. */
  predicate Deep(s: Store, n: nat, d: nat, bottom: nat) {
    && |s.words| % 2 == 0 && bottom % 2 == 0
    && Returns(s.words, s.stack.index, bottom) == d && Height(s.words, s.stack.index) == n
  }

  predicate CellKept(words: seq<Value>, words': seq<Value>, i: nat) {
    IsLink(words, i) ==>
      i + 1 < |words'| && words'[i + 1] == words[i + 1] && (IsFrame(words, i) ==> words'[i] == words[i])
  }

  /** Up to the cell `top` nothing has changed except the `car` fields of cells that are not frames. */
  predicate Kept(words: seq<Value>, words': seq<Value>, top: nat) {
    forall i: nat :: i <= top ==> CellKept(words, words', i)
  }

  lemma {:induction false} FrameKept(words: seq<Value>, words': seq<Value>, top: nat, i: nat)
    requires Kept(words, words', top) && Frame(words, i) >= 0 && i <= top
    ensures Frame(words', i) == Frame(words, i) && Height(words', i) == Height(words, i)
    decreases i
  {
    assert CellKept(words, words', i);
    if !IsFrame(words, i) {
      FrameKept(words, words', top, words[i + 1].cons.index);
    }
  }

  lemma {:induction false} ReturnsKept(words: seq<Value>, words': seq<Value>, top: nat, i: nat, bottom: nat)
    requires Kept(words, words', top) && Returns(words, i, bottom) >= 0 && i <= top
    ensures Returns(words', i, bottom) == Returns(words, i, bottom)
    decreases i
  {
    FrameKept(words, words', top, i);
    var f := Frame(words, i);
    var k := words[f].cons.index;
    assert CellKept(words, words', f);
    if k != bottom {
      assert CellKept(words, words', k);
      ReturnsKept(words, words', top, words[k + 1].cons.index, bottom);
    }
  }

  // ----- what changes a heap -----

  lemma {:induction false} DeepKept(s: Store, s': Store, n: nat, d: nat, bottom: nat)
    requires Deep(s, n, d, bottom) && Kept(s.words, s'.words, s.stack.index)
    requires |s'.words| % 2 == 0 && s'.stack.index == s.stack.index
    ensures Deep(s', n, d, bottom)
  {
    FrameKept(s.words, s'.words, s.stack.index, s.stack.index);
    ReturnsKept(s.words, s'.words, s.stack.index, s.stack.index, bottom);
  }

  lemma {:induction false} DeepRange(s: Store, n: nat, d: nat, bottom: nat)
    requires Deep(s, n, d, bottom)
    ensures s.stack.index + 1 < |s.words| && s.stack.index % 2 == 0
    ensures IsCell(s, s.stack) && Cdr(s, s.stack).Pointer? && (Cdr(s, s.stack).Tag() == FRAME <==> n == 0)
  {
  }

  lemma {:induction false} DeepAllocate(s: Store, car: Value, cdr: Value, n: nat, d: nat, bottom: nat)
    requires Deep(s, n, d, bottom)
    ensures Deep(Allocate(s, car, cdr), n, d, bottom)
  {
    DeepKept(s, Allocate(s, car, cdr), n, d, bottom);
  }

  /** A value on the top changes neither the frame nor the chain. */
  lemma {:induction false} TopAdded(words: seq<Value>, i: nat, bottom: nat)
    requires IsLink(words, i) && !IsFrame(words, i) && words[i + 1].cons.index < i
    ensures Returns(words, i, bottom) == Returns(words, words[i + 1].cons.index, bottom)
    ensures Height(words, i) == 1 + Height(words, words[i + 1].cons.index)
  {
    assert Frame(words, i) == Frame(words, words[i + 1].cons.index);
  }

  lemma {:induction false} DeepPush(s: Store, v: Value, n: nat, d: nat, bottom: nat)
    requires Deep(s, n, d, bottom) && PushOf(s, v).Ok?
    ensures Deep(PushOf(s, v).value, n + 1, d, bottom)
  {
    var s' := PushOf(s, v).value;
    FrameKept(s.words, s'.words, s.stack.index, s.stack.index);
    ReturnsKept(s.words, s'.words, s.stack.index, s.stack.index, bottom);
    TopAdded(s'.words, s'.stack.index, bottom);
  }

  lemma {:induction false} DeepPop(s: Store, n: nat, d: nat, bottom: nat)
    requires Deep(s, n, d, bottom) && n > 0
    ensures PopOf(s).Ok?
    ensures var s' := PopOf(s).value.1;
            && Deep(s', n - 1, d, bottom) && s'.stack.index + 1 < s.stack.index && s'.words == s.words
            && s' == s.(stack := s'.stack)
  {
    TopAdded(s.words, s.stack.index, bottom);
  }

  // ----- instructions -----

  lemma {:induction false} DeepSet(s: Store, n: nat, d: nat, bottom: nat)
    requires Deep(s, n, d, bottom) && n > 0 && SetOf(s).Ok?
    requires IsCell(s, OperandCons(s).value) && Cdr(s, OperandCons(s).value).Tag() != FRAME
    ensures Deep(SetOf(s).value, n - 1, d, bottom) && SetOf(s).value.code == s.code
  {
    hide TailOf, Deep;
    DeepPop(s, n, d, bottom);
    var (v, s1) := PopOf(s).value;
    DeepKept(s1, SetCar(s1, OperandCons(s).value, v), n - 1, d, bottom);
  }

  lemma {:induction false} DeepIf(s: Store, n: nat, d: nat, bottom: nat)
    requires Deep(s, n, d, bottom) && n > 0 && IfOf(s).Ok?
    ensures Deep(IfOf(s).value, n - 1, d, bottom)
  {
    hide Deep;
    DeepPop(s, n, d, bottom);
    DeepRange(s, n, d, bottom);
    var (v, s1) := PopOf(s).value;
    if !v.Same(Pointer(s.no)) {
      var s2 := SetCdr(s1, s.stack, CarOf(s1, s1.code).value);
      DeepKept(s1, s2, n - 1, d, bottom);
      DeepKept(s2, s2.(code := s.stack), n - 1, d, bottom);
    } else {
      DeepKept(s1, IfOf(s).value, n - 1, d, bottom);
    }
  }

  lemma {:induction false} DeepPrimitive(s: Store, id: int, n: nat, d: nat, bottom: nat)
    requires Deep(s, n, d, bottom) && OperateOf(s, id).Ok?
    requires n >= Needed(id)
    ensures var s' := OperateOf(s, id).value;
            Deep(s', Height(s'.words, s'.stack.index), d, bottom) && s'.code == s.code
  {
    hide Deep;
    DeepPop(s, n, d, bottom);
    var (x, s1) := PopOf(s).value;
    if id == CLOSE {
      var code := CarOf(s1, x.cons).value;
      var cdr := Pointer(s1.stack).SetTag(PROCEDURE);
      DeepAllocate(s1, code, cdr, n - 1, d, bottom);
      DeepPush(Allocate(s1, code, cdr), Pointer(Fresh(s1)), n - 1, d, bottom);
    } else {
      DeepPop(s1, n - 1, d, bottom);
      var (y, s2) := PopOf(s1).value;
      if id == UNBIND {
        DeepPush(s2, x, n - 2, d, bottom);
      } else {
        DeepPop(s2, n - 2, d, bottom);
        var (z, s3) := PopOf(s2).value;
        DeepAllocate(s3, z, y.SetTag(x.n % 65536), n - 3, d, bottom);
        DeepPush(Allocate(s3, z, y.SetTag(x.n % 65536)), Pointer(Fresh(s3)), n - 3, d, bottom);
      }
    }
  }

  // ----- calls -----

  lemma {:induction false} DeepArguments(s: Store, count: nat, list: Cons, n: nat, d: nat, bottom: nat)
    requires Deep(s, n, d, bottom) && count <= n && PopArguments(s, count, list).Ok?
    ensures var s' := PopArguments(s, count, list).value.0;
            Deep(s', n - count, d, bottom) && s'.code == s.code && s'.register == s.register
    decreases count
  {
    hide Deep;
    if count > 0 {
      DeepPop(s, n, d, bottom);
      var (v, s1) := PopOf(s).value;
      var s2 := Allocate(s1, v, Pointer(list.SetTag(PAIR)));
      DeepAllocate(s1, v, Pointer(list.SetTag(PAIR)), n - 1, d, bottom);
      DeepArguments(s2, count - 1, Fresh(s1), n - 1, d, bottom);
    }
  }

  lemma {:induction false} DeepBind(s: Store, count: nat, n: nat, d: nat, bottom: nat)
    requires Deep(s, n, d, bottom) && BindParameters(s, count).Ok?
    ensures Deep(BindParameters(s, count).value, n + count, d, bottom)
    decreases count
  {
    hide Deep;
    if count > 0 {
      var v := CarOf(s, s.register).value;
      DeepPush(s, v, n, d, bottom);
      var s1 := PushOf(s, v).value;
      DeepKept(s1, ShiftOf(s).value, n + 1, d, bottom);
      DeepBind(ShiftOf(s).value, count - 1, n + 1, d, bottom);
    }
  }

  lemma {:induction false} DeepSpreadList(s: Store, fuel: nat, n: nat, d: nat, bottom: nat)
    requires Deep(s, n, d, bottom) && SpreadList(s, fuel).Ok?
    ensures var s' := SpreadList(s, fuel).value; Deep(s', Height(s'.words, s'.stack.index), d, bottom)
    decreases fuel
  {
    hide Deep;
    if s.register.Same(NullOf(s).value) {
      DeepHeight(s, n, d, bottom);
    } else {
      var v := CarOf(s, s.register).value;
      DeepPush(s, v, n, d, bottom);
      var s1 := PushOf(s, v).value;
      DeepKept(s1, ShiftOf(s).value, n + 1, d, bottom);
      DeepSpreadList(ShiftOf(s).value, fuel - 1, n + 1, d, bottom);
    }
  }

  lemma {:induction false} DeepSpread(s: Store, n: nat, d: nat, bottom: nat)
    requires Deep(s, n, d, bottom) && n > 0 && SpreadArgumentsOf(s).Ok?
    ensures var s' := SpreadArgumentsOf(s).value; Deep(s', Height(s'.words, s'.stack.index), d, bottom)
  {
    hide Deep, SpreadList;
    DeepPop(s, n, d, bottom);
    var (v, s1) := PopOf(s).value;
    var s2 := s1.(register := v.cons);
    DeepSame(s1, s2, n - 1, d, bottom);
    DeepSpreadList(s2, |s1.words|, n - 1, d, bottom);
  }

  lemma {:induction false} FindsFrame(s: Store, c: Cons, fuel: nat)
    requires Frame(s.words, c.index) >= 0 && c.index < fuel
    ensures FrameFrom(s, c, fuel).Ok? && FrameFrom(s, c, fuel).value.index == Frame(s.words, c.index)
    decreases c.index
  {
    if !IsFrame(s.words, c.index) {
      FindsFrame(s, s.words[c.index + 1].cons, fuel - 1);
      assert FrameFrom(s, s.words[c.index + 1].cons, fuel - 1).Ok?;
    }
  }

  /** The continuation of a deep stack is that of its frame. */
  lemma {:induction false} FindsContinuation(s: Store, n: nat, d: nat, bottom: nat)
    requires Deep(s, n, d, bottom)
    ensures ContinuationOf(s) == Run.Ok(s.words[Frame(s.words, s.stack.index)].cons)
  {
    FindsFrame(s, s.stack, |s.words|);
  }

  lemma {:induction false} BottomIsBelow(words: seq<Value>, i: nat, bottom: nat)
    requires Returns(words, i, bottom) >= 0
    ensures bottom < |words|
    decreases i
  {
    var k := words[Frame(words, i)].cons.index;
    if k != bottom {
      BottomIsBelow(words, words[k + 1].cons.index, bottom);
    }
  }

  lemma {:induction false} TailFrame(words: seq<Value>, words': seq<Value>, i: nat, g: nat, bottom: nat)
    requires Kept(words, words', i) && Returns(words, i, bottom) >= 0 && i < g
    requires IsFrame(words', g) && words'[g] == words[Frame(words, i)]
    ensures Returns(words', g, bottom) == Returns(words, i, bottom) && Height(words', g) == 0
  {
    ReturnsKept(words, words', i, i, bottom);
    FrameKept(words, words', i, i);
    assert CellKept(words, words', Frame(words, i));
  }

  lemma {:induction false} NewFrame(words: seq<Value>, words': seq<Value>, i: nat, k: nat, g: nat, bottom: nat)
    requires Kept(words, words', i) && Returns(words, i, bottom) >= 0 && i < k < g && bottom != k
    requires IsFrame(words', g) && words'[g].Pointer? && words'[g].cons.index == k
    requires IsLink(words', k) && words'[k + 1].cons.index == i
    ensures Returns(words', g, bottom) == Returns(words, i, bottom) + 1 && Height(words', g) == 0
  {
    ReturnsKept(words, words', i, i, bottom);
  }

  lemma {:induction false} GrownIsKept(words: seq<Value>, words': seq<Value>, top: nat)
    requires words <= words'
    ensures Kept(words, words', top)
  {
  }

  lemma {:induction false} DeepTailFrame(s: Store, code: Cons, n: nat, d: nat, bottom: nat)
    requires Deep(s, n, d, bottom) && FrameOf(s, code, true).Ok?
    ensures Deep(FrameOf(s, code, true).value, 0, d, bottom)
  {
    hide Returns, Frame, Height, Kept, ContinuationOf;
    FindsContinuation(s, n, d, bottom);
    var s', i := FrameOf(s, code, true).value, s.stack.index;
    GrownIsKept(s.words, s'.words, i);
    FrameIsInside(s.words, i, bottom);
    TailFrame(s.words, s'.words, i, s'.stack.index, bottom);
  }

  lemma {:induction false} FrameIsInside(words: seq<Value>, i: nat, bottom: nat)
    requires Returns(words, i, bottom) >= 0
    ensures var f := Frame(words, i);
            0 <= f < |words| && words[f].Pointer? && IsLink(words, i)
  {
  }

  lemma {:induction false} DeepNewFrame(s: Store, code: Cons, n: nat, d: nat, bottom: nat)
    requires Deep(s, n, d, bottom) && FrameOf(s, code, false).Ok?
    ensures Deep(FrameOf(s, code, false).value, 0, d + 1, bottom)
  {
    hide Returns, Frame, Height, Kept;
    var s', i := FrameOf(s, code, false).value, s.stack.index;
    BottomIsBelow(s.words, i, bottom);
    FrameIsInside(s.words, i, bottom);
    GrownIsKept(s.words, s'.words, i);
    NewFrame(s.words, s'.words, i, |s.words|, s'.stack.index, bottom);
  }

  /** A call that is not a tail call adds a continuation; a tail call does not. */
  lemma {:induction false} DeepFrame(s: Store, code: Cons, tail: bool, n: nat, d: nat, bottom: nat)
    requires Deep(s, n, d, bottom) && FrameOf(s, code, tail).Ok?
    ensures Deep(FrameOf(s, code, tail).value, 0, if tail then d else d + 1, bottom)
  {
    hide Deep, FrameOf;
    if tail {
      DeepTailFrame(s, code, n, d, bottom);
    } else {
      DeepNewFrame(s, code, n, d, bottom);
    }
  }

  lemma {:induction false} DeepEnter(s: Store, procedure: Cons, a: Arity, b: Arity, tail: bool, n: nat, d: nat,
                                     bottom: nat)
    requires Deep(s, n, d, bottom) && EnterOf(s, procedure, a, b, tail).Ok?
    requires n >= if a.variadic then a.count + 1 else a.count
    ensures var s' := EnterOf(s, procedure, a, b, tail).value;
            Deep(s', Height(s'.words, s'.stack.index), if tail then d else d + 1, bottom)
  {
    hide Deep, PopArguments, FrameOf, BindParameters, Kept;
    var s0, n0 := s.(register := procedure), n;
    DeepSame(s, s0, n, d, bottom);
    var s1, list;
    if a.variadic {
      DeepPop(s0, n, d, bottom);
      s1, n0, list := PopOf(s0).value.1, n - 1, PopOf(s0).value.0.cons;
    } else {
      s1, list := s0, NullOf(s0).value;
    }
    DeepArguments(s1, a.count, list, n0, d, bottom);
    var (s2, args) := ArgumentsOf(s0, a).value;
    var s3 := s2.(code := s2.register, register := args);
    DeepSame(s2, s3, n0 - a.count, d, bottom);
    DeepFrame(s3, s2.code, tail, n0 - a.count, d, bottom);
    var s4 := FrameOf(s3, s2.code, tail).value;
    var d' := if tail then d else d + 1;
    DeepBind(s4, b.count, 0, d', bottom);
    var s5 := BindParameters(s4, b.count).value;
    if b.variadic {
      DeepPush(s5, Pointer(s5.register), b.count, d', bottom);
    }
    DeepHeight(EnterOf(s, procedure, a, b, tail).value, if b.variadic then b.count + 1 else b.count, d', bottom);
  }

  lemma {:induction false} DeepHeight(s: Store, n: nat, d: nat, bottom: nat)
    requires Deep(s, n, d, bottom)
    ensures n == Height(s.words, s.stack.index)
  {
  }

  lemma {:induction false} DeepSame(s: Store, s': Store, n: nat, d: nat, bottom: nat)
    requires Deep(s, n, d, bottom) && s'.words == s.words && s'.stack == s.stack
    ensures Deep(s', n, d, bottom)
  {
  }

  // ----- returns -----

  /** A return takes the top of the stack along. */
  lemma {:induction false} DeepReturn(s: Store, n: nat, d: nat, bottom: nat)
    requires Deep(s, n, d, bottom) && n > 0 && d > 0 && AdvanceOf(s).Ok?
    requires ConsAtCdr(s, s.code).value.Same(NullOf(s).value)
    ensures Deep(AdvanceOf(s).value, Height(AdvanceOf(s).value.words, s.stack.index), d - 1, bottom)
  {
    FindsContinuation(s, n, d, bottom);
    var f, t, s' := Frame(s.words, s.stack.index), s.stack.index, AdvanceOf(s).value;
    var k := s.words[f].cons.index;
    var base := s.words[k + 1].cons.index;
    hide ContinuationOf;
    assert s'.words == s.words[t + 1 := Pointer(Cons(base, s.words[t + 1].cons.tag))];
    FrameKept(s.words, s'.words, t - 1, base);
    ReturnsKept(s.words, s'.words, t - 1, base, bottom);
    TopAdded(s'.words, t, bottom);
  }

  // ----- steps -----

  /** The instruction that the code field points to. */
  function InstructionOf(s: Store): Cons
    requires StepOf(s).Ok?
  {
    ConsAtCdr(s, s.code).value
  }

  function Executed(s: Store): Store
    requires StepOf(s).Ok?
  {
    ExecuteOf(s, InstructionOf(s)).value
  }

  predicate IsClosure(s: Store, procedure: Cons) {
    IsCell(s, procedure) && Car(s, procedure).Pointer?
  }

  predicate IsClosureCall(s: Store, i: Cons) {
    i.tag >= CALL && ProcedureOf(s).Ok? && IsClosure(s, ProcedureOf(s).value)
  }

  /** A call of a closure that something follows. */
  predicate IsNonTailCall(s: Store)
    requires StepOf(s).Ok?
  {
    IsClosureCall(s, InstructionOf(s)) && !InstructionOf(s).Same(NullOf(s).value)
  }

  predicate IsReturn(s: Store)
    requires StepOf(s).Ok?
  {
    var s1 := Executed(s);
    ConsAtCdr(s1, s1.code).value.Same(NullOf(s1).value)
  }

  // The number of values that a primitive takes from the stack.
  function Needed(id: int): nat {
    if id == RIB then 3 else if id == CLOSE then 1 else 2
  }

  /** The number of values that an instruction takes from the stack, before the last argument of a variadic call
      is spread. */
  function Taken(s: Store, i: Cons): nat {
    if i.tag == CONSTANT || i.tag == GET then 0
    else if i.tag == SET || i.tag == IF then 1
    else
      var a := ParseArity(i.tag - CALL);
      if IsClosureCall(s, i) then a.count + (if a.variadic then 1 else 0)
      else if a.variadic then 1
      else if ProcedureOf(s).Ok? && IsCell(s, ProcedureOf(s).value) && Car(s, ProcedureOf(s).value).Number?
      then Needed(Car(s, ProcedureOf(s).value).n) else 0
  }

  /** What a call of a primitive leaves to the primitive. */
  function Spread(s: Store, a: Arity): Run<Store> {
    if a.variadic then SpreadArgumentsOf(s) else Run.Ok(s)
  }

  // A primitive that gets its arguments from a list finds them on the stack then.
  predicate StaysWithSpread(s: Store, i: Cons) {
    i.tag >= CALL && !IsClosureCall(s, i) && ParseArity(i.tag - CALL).variadic
    && SpreadArgumentsOf(s).Ok? && ProcedureOf(s).Ok? && IsCell(s, ProcedureOf(s).value)
    && Car(s, ProcedureOf(s).value).Number? ==>
      var s' := SpreadArgumentsOf(s).value;
      Needed(Car(s, ProcedureOf(s).value).n) <= Height(s'.words, s'.stack.index)
  }

  /** An instruction takes only values of its own frame and writes to no frame. */
  predicate StaysInFrame(s: Store, i: Cons) {
    && Taken(s, i) <= Height(s.words, s.stack.index)
    && (i.tag == SET ==>
          OperandCons(s).Ok? && IsCell(s, OperandCons(s).value) && Cdr(s, OperandCons(s).value).Tag() != FRAME)
    && StaysWithSpread(s, i)
  }

  /** What generated code sees to: its instructions stay in their frame, and a value is returned. */
  predicate IsDisciplined(s: Store)
    requires StepOf(s).Ok?
  {
    && StaysInFrame(s, InstructionOf(s))
    && (IsReturn(s) ==> Height(Executed(s).words, Executed(s).stack.index) > 0)
  }

  lemma {:induction false} DeepCall(s: Store, n: nat, d: nat, bottom: nat)
    requires StepOf(s).Ok? && IsDisciplined(s) && Deep(s, n, d, bottom)
    requires IsClosureCall(s, InstructionOf(s))
    ensures var s1 := Executed(s);
            Deep(s1, Height(s1.words, s1.stack.index), if IsNonTailCall(s) then d + 1 else d, bottom)
  {
    hide Deep, EnterOf, ProcedureOf;
    var i, procedure := InstructionOf(s), ProcedureOf(s).value;
    var info := CarOf(s, Car(s, procedure).cons).value.n;
    assert Executed(s) == EnterOf(s, procedure, ParseArity(i.tag - CALL), ParseArity(info), !IsNonTailCall(s)).value;
    DeepHeight(s, n, d, bottom);
    DeepEnter(s, procedure, ParseArity(i.tag - CALL), ParseArity(info), !IsNonTailCall(s), n, d, bottom);
  }

  lemma {:induction false} DeepExecute(s: Store, n: nat, d: nat, bottom: nat)
    requires StepOf(s).Ok? && IsDisciplined(s) && Deep(s, n, d, bottom)
    requires !IsClosureCall(s, InstructionOf(s))
    ensures Deep(Executed(s), Height(Executed(s).words, Executed(s).stack.index), d, bottom)
  {
    hide Deep, SetOf, IfOf, PushOf, OperateOf, TailOf;
    var i, s1 := InstructionOf(s), Executed(s);
    DeepHeight(s, n, d, bottom);
    if i.tag == CONSTANT {
      DeepPush(s, CarOf(s, s.code).value, n, d, bottom);
      DeepHeight(s1, n + 1, d, bottom);
    } else if i.tag == GET {
      DeepPush(s, CarOf(s, OperandCons(s).value).value, n, d, bottom);
      DeepHeight(s1, n + 1, d, bottom);
    } else if i.tag == SET {
      SetsCell(s);
      DeepSet(s, n, d, bottom);
      DeepHeight(s1, n - 1, d, bottom);
    } else if i.tag == IF {
      DeepIf(s, n, d, bottom);
      DeepHeight(s1, n - 1, d, bottom);
    } else {
      DeepPrimitiveCall(s, n, d, bottom);
    }
  }

  lemma {:induction false} DeepPrimitiveCall(s: Store, n: nat, d: nat, bottom: nat)
    requires StepOf(s).Ok? && IsDisciplined(s) && Deep(s, n, d, bottom)
    requires !IsClosureCall(s, InstructionOf(s)) && InstructionOf(s).tag >= CALL
    ensures Deep(Executed(s), Height(Executed(s).words, Executed(s).stack.index), d, bottom)
  {
    hide Deep, OperateOf, TailOf, SpreadArgumentsOf, ProcedureOf, Height;
    var a, id := ParseArity(InstructionOf(s).tag - CALL), Car(s, ProcedureOf(s).value).n;
    DeepHeight(s, n, d, bottom);
    if a.variadic {
      DeepSpread(s, n, d, bottom);
    }
    var s1 := Spread(s, a).value;
    assert Executed(s) == OperateOf(s1, id).value;
    DeepPrimitive(s1, id, Height(s1.words, s1.stack.index), d, bottom);
  }

  lemma {:induction false} SetsCell(s: Store)
    requires SetOf(s).Ok?
    ensures OperandCons(s).Ok? && IsCell(s, OperandCons(s).value)
  {
    hide TailOf;
  }

  // How many links a step adds.
  function Added(s: Store): int
    requires StepOf(s).Ok?
  {
    (if IsNonTailCall(s) then 1 else 0) - if IsReturn(s) then 1 else 0
  }

  /** A step adds a link if it is a non-tail call of a closure, removes one if it is a return, and otherwise
      leaves the depth as it is. */
  lemma {:induction false} StepDepth(s: Store, d: nat, bottom: nat)
    requires StepOf(s).Ok? && IsDisciplined(s) && Deep(s, Height(s.words, s.stack.index), d, bottom)
    requires d + Added(s) >= 0
    ensures var s' := StepOf(s).value; Deep(s', Height(s'.words, s'.stack.index), d + Added(s), bottom)
  {
    hide Deep, ExecuteOf, NullOf, IsDisciplined;
    var n, s1 := Height(s.words, s.stack.index), Executed(s);
    var m, d1 := Height(s1.words, s1.stack.index), if IsNonTailCall(s) then d + 1 else d;
    if IsClosureCall(s, InstructionOf(s)) {
      DeepCall(s, n, d, bottom);
    } else {
      DeepExecute(s, n, d, bottom);
    }
    assert StepOf(s) == AdvanceOf(s1);
    if IsReturn(s) {
      ReturnsValue(s);
      DeepReturn(s1, m, d1, bottom);
      StackStays(s1);
    } else {
      DeepSame(s1, StepOf(s).value, m, d1, bottom);
    }
  }

  lemma {:induction false} ReturnsValue(s: Store)
    requires StepOf(s).Ok? && IsDisciplined(s) && IsReturn(s)
    ensures Height(Executed(s).words, Executed(s).stack.index) > 0
  {
  }

  lemma {:induction false} StackStays(s: Store)
    requires AdvanceOf(s).Ok?
    ensures AdvanceOf(s).value.stack == s.stack
  {
  }

  // ----- runs -----

  predicate IsOver(s: Store) {
    NullOf(s).Ok? && s.code.Same(NullOf(s).value)
  }

  /** The machine takes its next step in a disciplined way, or the run is over. */
  predicate IsOrderly(s: Store) {
    IsOver(s) || (NullOf(s).Ok? && StepOf(s).Ok? && IsDisciplined(s))
  }

  predicate IsOrderlyAt(s: Store, i: nat) {
    StepsOf(s, i).Ok? && IsOrderly(StepsOf(s, i).value)
  }

  /** The non-tail calls of closures in a run, less the returns. */
  function CallsLessReturns(s: Store, n: nat): int
    decreases n
  {
    if n == 0 || IsOver(s) || !StepOf(s).Ok? then 0
    else Added(s) + CallsLessReturns(StepOf(s).value, n - 1)
  }

  lemma {:induction false} StepsCompose(s: Store, m: nat, n: nat)
    requires StepsOf(s, m).Ok?
    ensures StepsOf(s, m + n) == StepsOf(StepsOf(s, m).value, n)
    ensures CallsLessReturns(s, m + n) == CallsLessReturns(s, m) + CallsLessReturns(StepsOf(s, m).value, n)
    decreases m
  {
    hide StepOf, NullOf, Added;
    if m > 0 && !IsOver(s) {
      StepsCompose(StepOf(s).value, m - 1, n);
    }
  }

  lemma {:induction false} OneMore(s: Store)
    requires IsOrderly(s)
    ensures CallsLessReturns(s, 1) == if IsOver(s) then 0 else Added(s)
    ensures StepsOf(s, 1) == if IsOver(s) then Run.Ok(s) else Run.Ok(StepOf(s).value)
  {
    hide StepOf, NullOf, Added, IsDisciplined;
    assert IsOver(s) || CallsLessReturns(StepOf(s).value, 0) == 0;
    assert IsOver(s) || StepsOf(StepOf(s).value, 0) == Run.Ok(StepOf(s).value);
  }

  /** In every run the depth of the chain of continuations is the number of non-tail calls of closures less the
      number of returns; tail calls take no space on it. */
  lemma {:induction false} RunDepth(s: Store, n: nat, d: nat, bottom: nat)
    requires Deep(s, Height(s.words, s.stack.index), d, bottom)
    requires forall i :: 0 <= i < n ==> IsOrderlyAt(s, i)
    requires forall i :: 0 <= i <= n ==> d + CallsLessReturns(s, i) >= 0
    ensures StepsOf(s, n).Ok?
    ensures var s' := StepsOf(s, n).value;
            Deep(s', Height(s'.words, s'.stack.index), d + CallsLessReturns(s, n), bottom)
    decreases n
  {
    hide StepOf, Added, IsDisciplined, NullOf, Deep, StepsOf, CallsLessReturns;
    if n == 0 {
      NoSteps(s);
    } else {
      RunDepth(s, n - 1, d, bottom);
      assert IsOrderlyAt(s, n - 1);
      StepsCompose(s, n - 1, 1);
      var s1 := StepsOf(s, n - 1).value;
      OneMore(s1);
      if !IsOver(s1) {
        StepDepth(s1, d + CallsLessReturns(s, n - 1), bottom);
      }
    }
  }

  lemma {:induction false} NoSteps(s: Store)
    ensures StepsOf(s, 0) == Run.Ok(s) && CallsLessReturns(s, 0) == 0
  {
  }
}
