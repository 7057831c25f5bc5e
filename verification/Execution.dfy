/** Single instructions of generated code on the points of module `Worlds`. */
module Execution {
  import opened Stores
  import opened Scheme
  import opened CodeGenerator
  import opened Machine
  import opened Worlds
  import Depth

  // ----- runs -----

  /** Each of the first steps is disciplined, and no point before the last has more returns behind it than
      calls. */
  ghost predicate Behaves(s: Store, n: nat) {
    forall i :: 0 <= i < n ==> Depth.IsOrderlyAt(s, i) && Depth.CallsLessReturns(s, i) >= 0
  }

  /** Some steps lead to `s'` in an orderly way, with so many more calls than returns. */
  ghost predicate Reaches(s: Store, n: nat, s': Store, turn: int := 0) {
    StepsOf(s, n) == Run.Ok(s') && Depth.CallsLessReturns(s, n) == turn && Behaves(s, n)
  }

  /** The last of some steps fails. */
  ghost predicate Fails(s: Store, n: nat, e: VmError) {
    && n > 0 && StepsOf(s, n - 1).Ok? && Depth.CallsLessReturns(s, n - 1) >= 0 && Behaves(s, n - 1)
    && StepsOf(s, n).Failed? && StepsOf(s, n).error == e
  }

  lemma {:induction false} BehavesOn(s: Store, m: nat, s': Store, n: nat)
    requires StepsOf(s, m) == Run.Ok(s') && Behaves(s, m) && Depth.CallsLessReturns(s, m) >= 0 && Behaves(s', n)
    ensures Behaves(s, m + n)
  {
    hide Depth.IsOrderly, StepsOf, Depth.CallsLessReturns;
    forall i | 0 <= i < m + n ensures Depth.IsOrderlyAt(s, i) && Depth.CallsLessReturns(s, i) >= 0 {
      if i >= m {
        Depth.StepsCompose(s, m, i - m);
        assert Depth.IsOrderlyAt(s', i - m);
      }
    }
  }

  lemma {:induction false} ReachesOn(s: Store, m: nat, s': Store, n: nat, s'': Store, turn: nat, turn': int)
    requires Reaches(s, m, s', turn) && Reaches(s', n, s'', turn')
    ensures Reaches(s, m + n, s'', turn + turn')
  {
    hide StepsOf, Depth.CallsLessReturns, Behaves;
    Depth.StepsCompose(s, m, n);
    BehavesOn(s, m, s', n);
  }

  lemma {:induction false} FailsOn(s: Store, m: nat, s': Store, n: nat, e: VmError, turn: nat)
    requires Reaches(s, m, s', turn) && Fails(s', n, e)
    ensures Fails(s, m + n, e)
  {
    hide StepsOf, Depth.CallsLessReturns, Behaves;
    Depth.StepsCompose(s, m, n);
    Depth.StepsCompose(s, m, n - 1);
    BehavesOn(s, m, s', n - 1);
  }

  // ----- tops of stacks -----

  /** The top of the stack is a cell no older than `low` that holds a value and is not yet part of any
      environment, unless it is exposed. */
  ghost predicate IsTop(p: Point, d: Data, below: nat, exposed: bool, low: nat) {
    var t := p.s.stack.index;
    && t % 2 == 0 && low <= t && below < t && t + 1 < |p.s.words| && t !in p.w.fixed && t !in p.w.vars
    && (!exposed ==> t + 1 !in p.w.fixed)
    && IsData(p.w, d, p.s.words[t])
    && p.s.words[t + 1] == Pointer(Cons(below, PAIR))
  }

  lemma {:induction false} Pushed(p: Point, d: Data, v: Value)
    requires Holds(p) && IsData(p.w, d, v) && p.s.stack.index < |p.s.words|
    ensures PushOf(p.s, v).Ok?
    ensures var q := p.(s := PushOf(p.s, v).value);
            && Holds(q) && Evolves(p, q) && IsTop(q, d, p.s.stack.index, false, |p.s.words|)
            && q.s == p.s.(words := q.s.words, stack := q.s.stack)
  {
    hide IsData;
    assert !v.IsNever() by {
      DataIsNotNever(p.w, d, v);
    }
    var s' := PushOf(p.s, v).value;
    Allocated(p, s');
    VarsInRange(p, |p.s.words|);
  }

  lemma {:induction false} DataIsNotNever(w: World, d: Data, v: Value)
    requires IsData(w, d, v)
    ensures !v.IsNever()
  {
  }

  // No variable and no fixed word is outside the heap.
  lemma {:induction false} VarsInRange(p: Point, j: nat)
    requires Holds(p) && j >= |p.s.words|
    ensures j !in p.w.vars && j !in p.w.fixed
  {
    hide IsData;
    forall l | 0 <= l < |p.w.vars| ensures p.w.vars[l] < |p.s.words| {
      assert HoldsVar(p.w, p.s.words, p.st, l);
    }
  }

  // ----- instructions -----

  lemma {:induction false} CodeContinues(w: World, i: nat, k: Code)
    requires HasCode(w, i, k) && Continues(k)
    ensures i != w.nil && IsFixed(w, i) && HasNext(w, i)
    decreases k
  {
    if k.Nop? {
      CodeContinues(w, i, k.next);
    }
  }

  /** The code field points to an instruction that `k` follows. */
  ghost predicate At(p: Point, k: Code) {
    && IsFixed(p.w, p.s.code.index) && HasNext(p.w, p.s.code.index)
    && HasCode(p.w, Next(p.w, p.s.code.index), k)
  }

  function InstructionAt(p: Point): Cons
    requires HasNext(p.w, p.s.code.index)
  {
    p.w.fixed[p.s.code.index + 1].cons
  }

  lemma {:induction false} NullIsNil(p: Point)
    requires Holds(p)
    ensures NullOf(p.s).Ok? && NullOf(p.s).value.index == p.w.nil
  {
  }

  /** The instruction takes only values of its frame, and calls no closure. */
  ghost predicate IsSimple(s: Store, i: Cons) {
    Depth.StaysInFrame(s, i) && !Depth.IsClosureCall(s, i)
  }

  /** The value on the top belongs to the frame. */
  lemma {:induction false} TopIsHigh(p: Point, d: Data, base: nat, exposed: bool, low: nat)
    requires IsTop(p, d, base, exposed, low)
    ensures Depth.Height(p.s.words, p.s.stack.index) == 1 + Depth.Height(p.s.words, base)
  {
    hide IsData;
  }

  lemma {:induction false} PushIsSimple(s: Store, i: Cons)
    requires i.tag == CONSTANT || i.tag == GET
    ensures IsSimple(s, i)
  {
  }

  lemma {:induction false} BranchIsSimple(p: Point, d: Data, base: nat, exposed: bool, low: nat, i: Cons)
    requires IsTop(p, d, base, exposed, low) && i.tag == IF
    ensures IsSimple(p.s, i)
  {
    hide IsData, Depth.Height;
    TopIsHigh(p, d, base, exposed, low);
  }

  lemma {:induction false} SetIsSimple(p: Point, d: Data, base: nat, exposed: bool, low: nat, i: Cons)
    requires IsTop(p, d, base, exposed, low) && i.tag == SET
    requires OperandCons(p.s).Ok? && IsCell(p.s, OperandCons(p.s).value)
    requires Cdr(p.s, OperandCons(p.s).value).Tag() != FRAME
    ensures IsSimple(p.s, i)
  {
    hide IsData, Depth.Height, OperandCons;
    TopIsHigh(p, d, base, exposed, low);
  }

  // How a step that leads to `k` turns the number of calls less returns.
  function Turn(k: Code): int {
    if k.Return? then -1 else 0
  }

  // The code has come to its end.
  predicate IsAtEnd(s: Store) {
    ConsAtCdr(s, s.code).Ok? && NullOf(s).Ok? && ConsAtCdr(s, s.code).value.Same(NullOf(s).value)
  }

  lemma {:induction false} OneStep(p: Point, k: Code, s1: Store)
    requires Holds(p) && At(p, k) && p.s.code.index != p.w.nil
    requires ExecuteOf(p.s, InstructionAt(p)) == Run.Ok(s1) && AdvanceOf(s1).Ok?
    requires Depth.StaysInFrame(p.s, InstructionAt(p))
    requires IsAtEnd(s1) ==> Depth.Height(s1.words, s1.stack.index) > 0
    ensures Reaches(p.s, 1, AdvanceOf(s1).value,
                    (if Depth.IsClosureCall(p.s, InstructionAt(p)) && InstructionAt(p).index != p.w.nil then 1 else 0)
                    - if IsAtEnd(s1) then 1 else 0)
  {
    hide ExecuteOf, IsData, HasCode, Depth.Height, Depth.StaysInFrame, Depth.IsClosureCall, ContinuationOf;
    NullIsNil(p);
    assert CdrOf(p.s, p.s.code) == Run.Ok(p.w.fixed[p.s.code.index + 1]);
    assert StepOf(p.s) == AdvanceOf(s1);
    assert Depth.InstructionOf(p.s) == InstructionAt(p) && Depth.Executed(p.s) == s1;
    assert Depth.IsReturn(p.s) <==> IsAtEnd(s1);
    assert Depth.IsDisciplined(p.s);
    Depth.OneMore(p.s);
    Depth.NoSteps(p.s);
    assert Depth.IsOrderlyAt(p.s, 0);
  }

  /** A step whose instruction calls no closure and does not branch. */
  lemma {:induction false} SimpleStep(p: Point, k: Code, s1: Store)
    requires Holds(p) && At(p, k) && p.s.code.index != p.w.nil && (k.Return? || Continues(k))
    requires ExecuteOf(p.s, InstructionAt(p)) == Run.Ok(s1) && AdvanceOf(s1).Ok?
    requires IsSimple(p.s, InstructionAt(p)) && FixedIn(p.w, s1.words) && s1.code == p.s.code && s1.no == p.s.no
    requires k.Return? ==> Depth.Height(s1.words, s1.stack.index) > 0
    ensures Reaches(p.s, 1, AdvanceOf(s1).value, Turn(k))
  {
    hide ExecuteOf, IsData, HasCode, Depth.Height, Depth.StaysInFrame, Depth.IsClosureCall, AdvanceOf, Reaches,
         HasPrimitive;
    var i := Next(p.w, p.s.code.index);
    assert NullOf(s1).Ok? && NullOf(s1).value.index == p.w.nil;
    assert ConsAtCdr(s1, s1.code) == Run.Ok(InstructionAt(p));
    if k.Return? {
      ReturnIsNil(p.w, i);
    } else {
      CodeContinues(p.w, i, k);
    }
    OneStep(p, k, s1);
  }

  lemma {:induction false} AdvanceTo(q: Point, k: Code)
    requires Holds(q) && At(q, k) && Continues(k)
    ensures AdvanceOf(q.s) == Run.Ok(q.s.(code := InstructionAt(q)))
  {
    hide IsData;
    NullIsNil(q);
    CodeContinues(q.w, Next(q.w, q.s.code.index), k);
  }

  // ----- returning -----

  lemma {:induction false} FindsFrame(w: World, links: Links, s: Store, c: Cons, n: nat, fuel: nat, caller: Caller)
    requires FixedIn(View(w, links), s.words) && HasFrame(w, c.index, n, caller, links) && n < fuel
    ensures var f := FrameFrom(s, c, fuel);
            f.Ok? && f.value.index % 2 == 0 && f.value.index <= c.index && IsFrame(w, f.value.index, caller)
    decreases n
  {
    hide IsFrame;
    assert CdrOf(s, c) == Run.Ok(View(w, links).fixed[c.index + 1]);
    if n > 0 {
      FindsFrame(w, links, s, View(w, links).fixed[c.index + 1].cons, n - 1, fuel - 1, caller);
    }
  }

  lemma {:induction false} ReturnIsNil(w: World, i: nat)
    requires HasCode(w, i, Return)
    ensures i == w.nil
  {
  }

  /** A return keeps the top of the stack and puts it on the stack of the caller. */
  lemma {:induction false} AdvanceReturns(q: Point, links: Links, d: Data, base: nat, n: nat, caller: Caller,
                                          low: nat)
    requires Holds(q) && At(q, Return) && IsTop(q, d, base, false, low) && LinksIn(links, q.s.words)
    requires HasFrame(q.w, base, n, caller, links) && n + 1 < |q.s.words|
    ensures AdvanceOf(q.s).Ok? && caller.stack < q.s.stack.index
    ensures var p := q.(s := AdvanceOf(q.s).value);
            && p.s == q.s.(words := p.s.words, code := p.s.code) && p.s.code.index == caller.code
            && p.s.words == q.s.words[q.s.stack.index + 1 := Pointer(Cons(caller.stack, PAIR))]
  {
    hide IsData, HasCode, HasPrimitive, HoldsVar;
    NullIsNil(q);
    ReturnIsNil(q.w, Next(q.w, q.s.code.index));
    assert CdrOf(q.s, q.s.stack) == Run.Ok(Pointer(Cons(base, PAIR)));
    LinksAgree(q, links);
    FindsFrame(q.w, links, q.s, Cons(base, PAIR), n, |q.s.words| - 1, caller);
    assert FrameFrom(q.s, q.s.stack, |q.s.words|) == FrameFrom(q.s, Cons(base, PAIR), |q.s.words| - 1);
    var f := FrameFrom(q.s, q.s.stack, |q.s.words|).value;
    var k := q.w.fixed[f.index].cons;
    assert ContinuationOf(q.s) == Run.Ok(k);
    assert CdrOf(q.s, k) == Run.Ok(q.w.fixed[k.index + 1]);
    var s' := SetCdr(q.s, q.s.stack, q.w.fixed[k.index + 1]);
    assert ConsAtCar(s', k) == Run.Ok(q.w.fixed[k.index].cons);
    assert ConsAtCdr(s', q.w.fixed[k.index].cons) == Run.Ok(q.w.fixed[q.w.fixed[k.index].cons.index + 1].cons);
  }

  /** The top of the stack may be overwritten. */
  lemma {:induction false} TopMoved(q: Point, d: Data, base: nat, low: nat, v: Value)
    requires Holds(q) && IsTop(q, d, base, false, low)
    ensures Holds(q.(s := q.s.(words := q.s.words[q.s.stack.index + 1 := v])))
  {
    hide IsData, HasPrimitive;
    var r := q.(s := q.s.(words := q.s.words[q.s.stack.index + 1 := v]));
    forall l | 0 <= l < |r.st| ensures HoldsVar(r.w, r.s.words, r.st, l) {
      assert HoldsVar(q.w, q.s.words, q.st, l);
    }
  }

  // ----- operands -----

  lemma {:induction false} FindsCell(w: World, s: Store, c: Cons, n: nat)
    requires FixedIn(w, s.words) && CellAt(w, c.index, n) >= 0
    ensures TailOf(s, c, n).Ok? && TailOf(s, c, n).value.index == CellAt(w, c.index, n)
    decreases n
  {
    if n > 0 {
      assert CdrOf(s, c) == Run.Ok(w.fixed[c.index + 1]);
      FindsCell(w, s, w.fixed[c.index + 1].cons, n - 1);
    }
  }

  /** The operand of an instruction is the cell that it names. */
  lemma {:induction false} FindsOperand(p: Point, links: Links, o: Operand)
    requires Holds(p) && IsFixed(p.w, p.s.code.index) && HasOperand(p.w, o, p.w.fixed[p.s.code.index])
    requires LinksIn(links, p.s.words)
    requires o.Index? ==> CellAt(View(p.w, links), p.s.stack.index, o.index) >= 0
    ensures OperandCons(p.s).Ok?
    ensures OperandCons(p.s).value.index
            == if o.Index? then CellAt(View(p.w, links), p.s.stack.index, o.index) else p.w.symbols[o.name]
  {
    hide IsData, HasPrimitive;
    LinksAgree(p, links);
    assert CarOf(p.s, p.s.code) == Run.Ok(p.w.fixed[p.s.code.index]);
    if o.Index? {
      FindsCell(View(p.w, links), p.s, p.s.stack, o.index);
    }
  }

  // ----- arriving -----

  /** Generated code for an expression has run: its value is on the stack at the code that follows, or has
      been dropped, or has been returned. */
  ghost predicate Arrived(p: Point, k: Code, base: nat, caller: Caller, d: Data, exposed: bool, low: nat) {
    Holds(p) &&
    if k.Return? then p.s.code.index == caller.code && IsTop(p, d, caller.stack, false, low)
    else if IsDrop(k) then p.s.stack.index == base && HasCode(p.w, p.s.code.index, k.next)
    else IsTop(p, d, base, exposed, low) && HasCode(p.w, p.s.code.index, k)
  }

  /** From `p` the run gets to a later point of it. */
  ghost predicate Runs(p: Point, steps: nat, q: Point, own: set<nat> := {}, turn: int := 0) {
    Reaches(p.s, steps, q.s, turn) && Evolves(p, q, own)
  }

  lemma {:induction false} RunsOn(p: Point, m: nat, q: Point, n: nat, r: Point, own: set<nat> := {},
                                  own': set<nat> := {}, turn: int := 0, start: nat := 0)
    requires Runs(p, m, q, own, start) && Runs(q, n, r, own', turn)
    requires forall j :: j in own' ==> j in own || j >= |p.s.words|
    ensures Runs(p, m + n, r, own, start + turn)
  {
    hide Reaches, Evolves;
    ReachesOn(p.s, m, q.s, n, r.s, start, turn);
    EvolvesTrans(p, q, r, own, own');
  }

  lemma {:induction false} RunsNowhere(p: Point)
    ensures Runs(p, 0, p)
  {
    Depth.NoSteps(p.s);
  }

  lemma {:induction false} DropsTop(p: Point, k: Code, d: Data, base: nat, exposed: bool, low: nat)
    requires Holds(p) && HasCode(p.w, p.s.code.index, k) && IsDrop(k) && IsTop(p, d, base, exposed, low)
    ensures At(p, k.next) && p.s.code.index != p.w.nil
    ensures SetOf(p.s) == Run.Ok(p.s.(stack := Cons(base, PAIR))) && IsSimple(p.s, InstructionAt(p))
  {
    hide IsData;
    assert CarOf(p.s, p.s.code) == Run.Ok(Number(0));
    assert TailOf(p.s, p.s.stack, 0) == Run.Ok(p.s.stack);
    SetIsSimple(p, d, base, exposed, low, InstructionAt(p));
    var t := p.s.stack.index;
    assert PopOf(p.s) == Run.Ok((p.s.words[t], p.s.(stack := Cons(base, PAIR))));
    DataIsNotNever(p.w, d, p.s.words[t]);
    assert p.s.words[t := p.s.words[t]] == p.s.words;
  }

  /** At the code that follows an expression with its value on the stack, at most a drop is left to do. */
  lemma {:induction false} Land(p: Point, k: Code, base: nat, caller: Caller, d: Data, exposed: bool, low: nat)
    returns (steps: nat, q: Point)
    requires Holds(p) && IsTop(p, d, base, exposed, low) && HasCode(p.w, p.s.code.index, k)
    requires IsContinuation(k) && !k.Return?
    ensures Runs(p, steps, q) && q.st == p.st && Arrived(q, k, base, caller, d, exposed, low)
  {
    hide IsData, AdvanceOf, HasPrimitive, Reaches, Evolves, Holds, SetOf, IsSimple;
    if IsDrop(k) {
      DropsTop(p, k, d, base, exposed, low);
      var s1 := p.s.(stack := Cons(base, PAIR));
      assert InstructionAt(p).tag == SET;
      OnlyRoots(p, s1);
      AdvanceTo(p.(s := s1), k.next);
      assert FixedIn(p.w, s1.words) by {
        HoldsFixed(p);
      }
      SimpleStep(p, k.next, s1);
      steps, q := 1, p.(s := AdvanceOf(s1).value);
      OnlyRoots(p, q.s);
    } else {
      steps, q := 0, p;
      RunsNowhere(p);
    }
  }

  lemma {:induction false} HoldsFixed(p: Point)
    requires Holds(p)
    ensures FixedIn(p.w, p.s.words) && |p.s.words| % 2 == 0
  {
  }

  /** An instruction that pushes the value of an expression, the last of the code for it, has been carried
      out and the next is to be fetched. */
  ghost predicate Pushes(p: Point, q: Point, k: Code, d: Data, base: nat, exposed: bool, low: nat) {
    && Holds(p) && Holds(q) && Evolves(p, q) && At(p, k) && p.s.code.index != p.w.nil && IsContinuation(k)
    && ExecuteOf(p.s, InstructionAt(p)) == Run.Ok(q.s) && IsSimple(p.s, InstructionAt(p))
    && q.s.code == p.s.code && IsTop(q, d, base, exposed, low)
  }

  lemma {:induction false} AtStays(p: Point, q: Point, k: Code)
    requires At(p, k) && Evolves(p, q) && q.s.code == p.s.code
    ensures At(q, k) && InstructionAt(q) == InstructionAt(p)
  {
    CodeGrows(p.w, q.w, Next(p.w, p.s.code.index), k);
  }

  lemma {:induction false} FixedLater(p: Point, q: Point)
    requires Grows(p.w, q.w) && FixedIn(q.w, q.s.words)
    ensures FixedIn(p.w, q.s.words)
  {
  }

  /** The next instruction is fetched. */
  lemma {:induction false} Fetch(p: Point, q: Point, k: Code, d: Data, base: nat, exposed: bool, low: nat)
    returns (r: Point)
    requires Pushes(p, q, k, d, base, exposed, low) && Continues(k)
    ensures Runs(p, 1, r) && r.st == q.st && r.w == q.w && Holds(r)
    ensures IsTop(r, d, base, exposed, low) && HasCode(r.w, r.s.code.index, k)
    ensures r.s.words == q.s.words && r.s.stack == q.s.stack
  {
    hide IsData, AdvanceOf, ExecuteOf, HasPrimitive, HasCode, Reaches, IsSimple;
    AtStays(p, q, k);
    AdvanceTo(q, k);
    FixedLater(p, q);
    SimpleStep(p, k, q.s);
    r := q.(s := AdvanceOf(q.s).value);
    Allocated(q, r.s);
    EvolvesTrans(p, q, r);
  }

  lemma {:induction false} Settle(p: Point, q: Point, k: Code, base: nat, n: nat, caller: Caller, d: Data,
                                  exposed: bool, low: nat, links: Links)
    returns (steps: nat, r: Point)
    requires Pushes(p, q, k, d, base, exposed, low) && HasFrame(p.w, base, n, caller, links) && n < |p.s.words|
    requires LinksIn(links, p.s.words)
    requires k.Return? ==> !exposed && |p.s.words| <= q.s.stack.index
    ensures Runs(p, steps, r, {}, Turn(k)) && r.st == q.st && Arrived(r, k, base, caller, d, exposed, low)
  {
    hide IsData, AdvanceOf, ExecuteOf, HasFrame, HasCode, Reaches, IsSimple, LinksIn, Holds, Evolves, IsTop, At,
         Arrived;
    if k.Return? {
      steps := 1;
      r := Returns(p, q, base, n, caller, d, low, links);
    } else {
      var p1 := Fetch(p, q, k, d, base, exposed, low);
      steps, r := Land(p1, k, base, caller, d, exposed, low);
      RunsOn(p, 1, p1, steps, r);
      steps := 1 + steps;
    }
  }

  /** The value is returned. */
  lemma {:induction false} Returns(p: Point, q: Point, base: nat, n: nat, caller: Caller, d: Data, low: nat,
                                   links: Links)
    returns (r: Point)
    requires Pushes(p, q, Return, d, base, false, low) && HasFrame(p.w, base, n, caller, links)
    requires LinksIn(links, p.s.words) && n < |p.s.words| <= q.s.stack.index
    ensures Runs(p, 1, r, {}, -1) && r.st == q.st && Arrived(r, Return, base, caller, d, false, low)
  {
    hide IsData, AdvanceOf, ExecuteOf, HasFrame, HasPrimitive, HasCode, Reaches, IsSimple, Depth.Height, LinksIn;
    AtStays(p, q, Return);
    LinksStay(p, q, links);
    FrameGrows(p.w, q.w, base, n, caller, links);
    AdvanceReturns(q, links, d, base, n, caller, low);
    TopIsHigh(q, d, base, false, low);
    FixedLater(p, q);
    SimpleStep(p, Return, q.s);
    r := q.(s := AdvanceOf(q.s).value);
    TopMoved(q, d, base, low, Pointer(Cons(caller.stack, PAIR)));
    Allocated(q.(s := q.s.(words := r.s.words)), r.s);
  }
}
