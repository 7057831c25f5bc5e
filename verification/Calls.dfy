/** What a procedure call of `vm/src/vm.rs` does to arguments, frames and continuations. */
module Calls {
  import opened Stores
  import opened Machine
  import Distinctness

  /** The cells from `c` up to `end` hold `values`, and their pointers carry `tag`. */
  ghost predicate ListAt(words: seq<Value>, c: Cons, values: seq<Value>, end: Cons, tag: nat)
    decreases |values|
  {
    if values == [] then c.Same(end)
    else
      && c.index % 2 == 0 && c.index + 1 < |words| && !c.Same(end)
      && words[c.index] == values[0]
      && words[c.index + 1].Pointer? && words[c.index + 1].Tag() == tag
      && ListAt(words, words[c.index + 1].cons, values[1..], end, tag)
  }

  // Allocation only appends to a heap.
  lemma {:induction false} ListGrows(words: seq<Value>, words': seq<Value>, c: Cons, values: seq<Value>, end: Cons,
                                     tag: nat)
    requires words <= words' && ListAt(words, c, values, end, tag)
    ensures ListAt(words', c, values, end, tag)
    decreases |values|
  {
    if values != [] {
      ListGrows(words, words', words[c.index + 1].cons, values[1..], end, tag);
    }
  }

  function Reverse(values: seq<Value>): (r: seq<Value>)
    ensures |r| == |values|
  {
    if values == [] then [] else Reverse(values[1..]) + [values[0]]
  }

  lemma {:induction false} ReverseSnoc(values: seq<Value>, v: Value)
    ensures Reverse(values + [v]) == [v] + Reverse(values)
  {
    if values == [] {
      assert values + [v] == [v];
    } else {
      assert (values + [v])[1..] == values[1..] + [v];
      ReverseSnoc(values[1..], v);
      assert [v] + (Reverse(values[1..]) + [values[0]]) == [v] + Reverse(values[1..]) + [values[0]];
    }
  }

  predicate Storable(values: seq<Value>) {
    forall v <- values :: !v.IsNever()
  }

  // ----- binding -----

  /** A heap that only allocation has changed, with the same false value and code. */
  ghost predicate Grows(s: Store, s': Store) {
    && s.words <= s'.words && |s.words| % 2 == 0 && |s'.words| % 2 == 0
    && s'.no == s.no && s'.code == s.code
  }

  /** The register holds `args`, and `pushed` is on the stack above `base`. */
  ghost predicate Binding(s: Store, args: seq<Value>, nil: Cons, pushed: seq<Value>, base: Cons) {
    && |s.words| % 2 == 0 && NullOf(s) == Ok(nil) && !nil.IsNever() && base.index < |s.words| && Storable(args)
    && ListAt(s.words, s.register, args, nil, PAIR)
    && ListAt(s.words, s.stack, pushed, base, PAIR)
  }

  lemma {:induction false} ShiftMoves(s: Store, args: seq<Value>, nil: Cons, pushed: seq<Value>, base: Cons)
    requires args != [] && Binding(s, args, nil, pushed, base)
    ensures ShiftOf(s).Ok?
    ensures var s' := ShiftOf(s).value; Grows(s, s') && Binding(s', args[1..], nil, [args[0]] + pushed, base)
  {
    var s' := ShiftOf(s).value;
    ListGrows(s.words, s'.words, s.register, args, nil, PAIR);
    ListGrows(s.words, s'.words, s.stack, pushed, base, PAIR);
    assert ([args[0]] + pushed)[1..] == pushed;
  }

  lemma {:induction false} ReverseTake(args: seq<Value>, n: nat, pushed: seq<Value>)
    requires 0 < n <= |args|
    ensures Reverse(args[..n]) + pushed == Reverse(args[1..][..n - 1]) + ([args[0]] + pushed)
    ensures args[1..][n - 1..] == args[n..]
  {
    assert args[1..][..n - 1] == args[..n][1..];
    assert args[..n][0] == args[0];
  }

  lemma {:induction false} BindTakes(s: Store, n: nat, args: seq<Value>, nil: Cons, pushed: seq<Value>, base: Cons)
    requires n <= |args| && Binding(s, args, nil, pushed, base)
    ensures var r := BindParameters(s, n);
            && r.Ok? && Grows(s, r.value)
            && Binding(r.value, args[n..], nil, Reverse(args[..n]) + pushed, base)
    decreases n
  {
    if n == 0 {
      assert args[0..] == args && Reverse(args[..0]) + pushed == pushed;
    } else {
      hide ListAt, ShiftOf, Storable;
      assert !s.register.Same(nil) by {
        RegisterIsNil(s, args, nil, pushed, base);
      }
      ShiftMoves(s, args, nil, pushed, base);
      BindTakes(ShiftOf(s).value, n - 1, args[1..], nil, [args[0]] + pushed, base);
      ReverseTake(args, n, pushed);
    }
  }

  lemma {:induction false} RegisterIsNil(s: Store, args: seq<Value>, nil: Cons, pushed: seq<Value>, base: Cons)
    requires Binding(s, args, nil, pushed, base)
    ensures s.register.Same(nil) <==> args == []
  {
  }

  lemma {:induction false} BindTakesTooMany(s: Store, n: nat, args: seq<Value>, nil: Cons, pushed: seq<Value>,
                                            base: Cons)
    requires |args| < n && Binding(s, args, nil, pushed, base)
    ensures var r := BindParameters(s, n); r.Failed? && r.error == ArgumentCount
    decreases n
  {
    RegisterIsNil(s, args, nil, pushed, base);
    if args != [] {
      hide ListAt, Storable;
      ShiftMoves(s, args, nil, pushed, base);
      BindTakesTooMany(ShiftOf(s).value, n - 1, args[1..], nil, [args[0]] + pushed, base);
    }
  }

  predicate Fits(arguments: nat, parameters: Arity) {
    if parameters.variadic then parameters.count <= arguments else parameters.count == arguments
  }

  /** The parameters of a procedure are on the stack above `base`, the last one on top, and above them the
      list of the rest if the procedure is variadic. */
  ghost predicate Bound(s: Store, parameters: Arity, args: seq<Value>, nil: Cons, base: Cons)
    requires Fits(|args|, parameters)
  {
    var n := parameters.count;
    if parameters.variadic then
      exists rest: Cons ::
        && ListAt(s.words, rest, args[n..], nil, PAIR)
        && ListAt(s.words, s.stack, [Pointer(rest)] + Reverse(args[..n]), base, PAIR)
    else ListAt(s.words, s.stack, Reverse(args), base, PAIR)
  }

  /** Binding succeeds exactly when the arity fits. */
  lemma {:induction false} BindSucceedsIffFits(s: Store, parameters: Arity, args: seq<Value>, nil: Cons, base: Cons)
    requires Binding(s, args, nil, [], base)
    ensures var r := BindAll(s, parameters);
            if Fits(|args|, parameters)
            then r.Ok? && Grows(s, r.value) && Bound(r.value, parameters, args, nil, base)
            else r.Failed? && r.error == ArgumentCount
  {
    var n := parameters.count;
    if n > |args| {
      BindTakesTooMany(s, n, args, nil, [], base);
    } else {
      BindTakes(s, n, args, nil, [], base);
      var s' := BindParameters(s, n).value;
      RegisterIsNil(s', args[n..], nil, Reverse(args[..n]) + [], base);
      assert Reverse(args[..n]) + [] == Reverse(args[..n]);
      if parameters.variadic {
        PushRest(s', args[n..], nil, Reverse(args[..n]), base);
      } else if n == |args| {
        assert args[..n] == args;
      }
    }
  }

  lemma {:induction false} PushRest(s: Store, args: seq<Value>, nil: Cons, pushed: seq<Value>, base: Cons)
    requires Binding(s, args, nil, pushed, base)
    ensures var r := PushOf(s, Pointer(s.register));
            && r.Ok? && Grows(s, r.value)
            && ListAt(r.value.words, s.register, args, nil, PAIR)
            && ListAt(r.value.words, r.value.stack, [Pointer(s.register)] + pushed, base, PAIR)
  {
    var s' := PushOf(s, Pointer(s.register)).value;
    ListGrows(s.words, s'.words, s.register, args, nil, PAIR);
    ListGrows(s.words, s'.words, s.stack, pushed, base, PAIR);
    assert ([Pointer(s.register)] + pushed)[1..] == pushed;
  }

  // ----- popping arguments -----

  /** `args` are on the stack above `base`, the last one on top, and `more` is in a list. */
  ghost predicate Popping(s: Store, args: seq<Value>, list: Cons, more: seq<Value>, nil: Cons, base: Cons) {
    && |s.words| % 2 == 0 && nil.index < |s.words| && !nil.IsNever() && base.index < |s.words| && Storable(args)
    && ListAt(s.words, list, more, nil, PAIR)
    && ListAt(s.words, s.stack, Reverse(args), base, PAIR)
  }

  lemma {:induction false} ReverseHead(args: seq<Value>)
    requires args != []
    ensures var n := |args| - 1; Reverse(args) == [args[n]] + Reverse(args[..n])
  {
    var n := |args| - 1;
    assert args == args[..n] + [args[n]];
    ReverseSnoc(args[..n], args[n]);
  }

  lemma {:induction false} PopOne(s: Store, args: seq<Value>, list: Cons, more: seq<Value>, nil: Cons, base: Cons)
    requires Popping(s, args, list, more, nil, base) && args != []
    ensures var n := |args| - 1;
            && PopOf(s).Ok? && PopOf(s).value.0 == args[n] && !args[n].IsNever()
            && var s1 := PopOf(s).value.1;
               var s2 := Allocate(s1, args[n], Pointer(list.SetTag(PAIR)));
               && Popping(s2, args[..n], Fresh(s1), [args[n]] + more, nil, base)
               && Grows(s, s2) && s2.register == s.register
  {
    var n := |args| - 1;
    ReverseHead(args);
    assert Reverse(args)[1..] == Reverse(args[..n]);
    var s1 := PopOf(s).value.1;
    var s2 := Allocate(s1, args[n], Pointer(list.SetTag(PAIR)));
    ListGrows(s.words, s2.words, list, more, nil, PAIR);
    ListGrows(s.words, s2.words, s1.stack, Reverse(args[..n]), base, PAIR);
    assert ([args[n]] + more)[1..] == more;
  }

  /** Popping turns the arguments on the stack into a list of them in order. */
  lemma {:induction false} PopCollects(s: Store, args: seq<Value>, list: Cons, more: seq<Value>, nil: Cons, base: Cons)
    requires Popping(s, args, list, more, nil, base)
    ensures var r := PopArguments(s, |args|, list);
            && r.Ok? && Grows(s, r.value.0) && r.value.0.stack.Same(base) && r.value.0.register == s.register
            && ListAt(r.value.0.words, r.value.1, args + more, nil, PAIR)
    decreases |args|
  {
    if args == [] {
      assert args + more == more;
    } else {
      hide ListAt, Storable, Reverse;
      var n := |args| - 1;
      PopOne(s, args, list, more, nil, base);
      var s1 := PopOf(s).value.1;
      var s2 := Allocate(s1, args[n], Pointer(list.SetTag(PAIR)));
      PopCollects(s2, args[..n], Fresh(s1), [args[n]] + more, nil, base);
      assert args[..n] + ([args[n]] + more) == args + more;
    }
  }

  // ----- frames -----

  /** A frame cell: a continuation, and the environment marked with the frame tag. */
  predicate IsFrame(words: seq<Value>, frame: Cons, k: Cons, environment: Cons) {
    && frame.index % 2 == 0 && frame.index + 1 < |words|
    && words[frame.index] == Pointer(k)
    && words[frame.index + 1] == Pointer(environment.SetTag(FRAME))
  }

  /** A continuation cell: the code that called, and the stack under the arguments. */
  predicate IsContinuation(words: seq<Value>, k: Cons, code: Cons, stack: Cons) {
    && k.index % 2 == 0 && k.index + 1 < |words|
    && words[k.index] == Pointer(code)
    && words[k.index + 1] == Pointer(stack)
  }

  lemma {:induction false} FrameGrows(s: Store, s': Store, stack: Cons, stack': Cons, fuel: nat, fuel': nat)
    requires s.words <= s'.words && fuel <= fuel' && FrameFrom(s, stack, fuel).Ok? && stack.Same(stack')
    ensures FrameFrom(s', stack', fuel').Ok?
    ensures FrameFrom(s', stack', fuel').value.Same(FrameFrom(s, stack, fuel).value)
    decreases fuel
  {
    var next := ConsAtCdr(s, stack).value;
    if next.tag != FRAME {
      FrameGrows(s, s', next, next, fuel - 1, fuel' - 1);
    }
  }

  /** The procedure in the code field has a body and an environment. */
  predicate IsProcedure(words: seq<Value>, procedure: Cons, body: Cons, environment: Cons) {
    && procedure.index % 2 == 0 && procedure.index + 1 < |words|
    && words[procedure.index] == Pointer(body) && words[procedure.index + 1] == Pointer(environment)
  }

  /** A call that is not a tail call pushes a frame whose continuation is the calling code and stack; a tail
      call reuses the continuation of the frame it is called from. */
  lemma {:induction false} FrameIsMade(s: Store, code: Cons, body: Cons, environment: Cons, tail: bool)
    requires |s.words| % 2 == 0 && !code.IsNever() && IsProcedure(s.words, s.code, body, environment)
    requires tail ==> ContinuationOf(s).Ok? && !ContinuationOf(s).value.IsNever()
    ensures var r := FrameOf(s, code, tail);
            && r.Ok? && s.words <= r.value.words && |r.value.words| % 2 == 0
            && r.value.no == s.no && r.value.register == s.register && r.value.code == body
            && r.value.stack.index < |r.value.words|
            && exists k: Cons ::
                 && IsFrame(r.value.words, r.value.stack, k, environment)
                 && if tail then k == ContinuationOf(s).value else IsContinuation(r.value.words, k, code, s.stack)
  {
    var r := FrameOf(s, code, tail);
    var k := if tail then ContinuationOf(s).value else Fresh(s);
    assert IsFrame(r.value.words, r.value.stack, k, environment);
  }

  // ----- the whole call -----

  /** A call is about to happen: `fixed` arguments are on the stack above `base` and, if the call is
      variadic, the list of the others is above them. */
  ghost predicate Calling(s: Store, arguments: Arity, fixed: seq<Value>, more: seq<Value>, nil: Cons, base: Cons) {
    && |s.words| % 2 == 0 && NullOf(s) == Ok(nil) && !nil.IsNever() && nil.index < |s.words|
    && base.index < |s.words| && !s.code.IsNever()
    && |fixed| == arguments.count && Storable(fixed) && Storable(more)
    && if arguments.variadic then
         exists list: Cons ::
           && ListAt(s.words, list, more, nil, PAIR)
           && ListAt(s.words, s.stack, [Pointer(list)] + Reverse(fixed), base, PAIR)
       else more == [] && ListAt(s.words, s.stack, Reverse(fixed), base, PAIR)
  }

  lemma {:induction false} ArgumentsCollected(s: Store, arguments: Arity, fixed: seq<Value>, more: seq<Value>,
                                              nil: Cons, base: Cons)
    requires Calling(s, arguments, fixed, more, nil, base)
    ensures var r := ArgumentsOf(s, arguments);
            && r.Ok? && Grows(s, r.value.0) && r.value.0.stack.Same(base) && r.value.0.register == s.register
            && ListAt(r.value.0.words, r.value.1, fixed + more, nil, PAIR)
  {
    if arguments.variadic {
      var list :| && ListAt(s.words, list, more, nil, PAIR)
                  && ListAt(s.words, s.stack, [Pointer(list)] + Reverse(fixed), base, PAIR);
      assert ([Pointer(list)] + Reverse(fixed))[1..] == Reverse(fixed);
      var s1 := PopOf(s).value.1;
      PopCollects(s1, fixed, list, more, nil, base);
    } else {
      PopCollects(s, fixed, nil, [], nil, base);
    }
  }

  /** The stack has a frame to return to. */
  ghost predicate CanReturn(s: Store, base: Cons) {
    var f := FrameFrom(s, base, |s.words|);
    f.Ok? && IsCell(s, f.value) && Car(s, f.value).Pointer? && !Car(s, f.value).IsNever()
  }

  /** The outcome of a call: the body of the procedure, its parameters above its frame, and the way back. */
  ghost predicate Called(s: Store, s': Store, parameters: Arity, args: seq<Value>, nil: Cons, base: Cons,
                         body: Cons, environment: Cons, tail: bool)
    requires Fits(|args|, parameters) && (tail ==> CanReturn(s, base))
  {
    && s.words <= s'.words && s'.code == body
    && exists frame: Cons, k: Cons ::
         && Bound(s', parameters, args, nil, frame) && IsFrame(s'.words, frame, k, environment)
         && if tail
            then Car(s, FrameFrom(s, base, |s.words|).value) == Pointer(k)
            else exists stack: Cons :: stack.Same(base) && IsContinuation(s'.words, k, s.code, stack)
  }

  /** A call enters the procedure exactly when the number of arguments fits its parameters. */
  lemma {:induction false} CallEntersIffFits(s: Store, procedure: Cons, arguments: Arity, parameters: Arity, tail: bool,
                          fixed: seq<Value>, more: seq<Value>, nil: Cons, base: Cons, body: Cons, environment: Cons)
    requires Calling(s, arguments, fixed, more, nil, base)
    requires IsProcedure(s.words, procedure, body, environment)
    requires tail ==> CanReturn(s, base)
    ensures var r := EnterOf(s, procedure, arguments, parameters, tail);
            if Fits(|fixed + more|, parameters)
            then r.Ok? && Called(s, r.value, parameters, fixed + more, nil, base, body, environment, tail)
            else r.Failed? && r.error == ArgumentCount
  {
    hide ListAt, Reverse, Storable, BindAll, FrameOf, FrameFrom;
    var s0 := s.(register := procedure);
    ArgumentsCollected(s0, arguments, fixed, more, nil, base);
    var (s1, list) := ArgumentsOf(s0, arguments).value;
    var s2 := s1.(code := s1.register, register := list);
    var args := fixed + more;
    if tail {
      FrameGrows(s, s2, base, s2.stack, |s.words|, |s2.words|);
    }
    FrameIsMade(s2, s1.code, body, environment, tail);
    var s3 := FrameOf(s2, s1.code, tail).value;
    var k :| && IsFrame(s3.words, s3.stack, k, environment)
             && if tail then k == ContinuationOf(s2).value else IsContinuation(s3.words, k, s1.code, s2.stack);
    AppendStorable(fixed, more);
    ListGrows(s2.words, s3.words, list, args, nil, PAIR);
    EmptyList(s3.words, s3.stack);
    BindSucceedsIffFits(s3, parameters, args, nil, s3.stack);
    if Fits(|args|, parameters) {
      var s' := BindAll(s3, parameters).value;
      assert IsFrame(s'.words, s3.stack, k, environment);
      assert !tail ==> IsContinuation(s'.words, k, s.code, s2.stack);
    }
  }

  lemma {:induction false} AppendStorable(a: seq<Value>, b: seq<Value>)
    requires Storable(a) && Storable(b)
    ensures Storable(a + b)
  {
  }

  lemma {:induction false} EmptyList(words: seq<Value>, c: Cons)
    ensures ListAt(words, c, [], c, PAIR)
  {
  }

  // ----- calls of primitives -----

  // The cells of a list.
  ghost function Cells(words: seq<Value>, c: Cons, values: seq<Value>, end: Cons, tag: nat): (r: seq<nat>)
    requires ListAt(words, c, values, end, tag)
    ensures |r| == |values|
    decreases |values|
  {
    if values == [] then [] else [c.index] + Cells(words, words[c.index + 1].cons, values[1..], end, tag)
  }

  lemma {:induction false} CellIsThere(words: seq<Value>, c: Cons, values: seq<Value>, end: Cons, tag: nat, i: nat)
    returns (d: Cons)
    requires ListAt(words, c, values, end, tag) && i < |values|
    ensures d.index == Cells(words, c, values, end, tag)[i] && d.index + 1 < |words|
    ensures ListAt(words, d, values[i..], end, tag)
    decreases |values|
  {
    if i == 0 {
      d := c;
    } else {
      d := CellIsThere(words, words[c.index + 1].cons, values[1..], end, tag, i - 1);
      assert values[1..][i - 1..] == values[i..];
    }
  }

  lemma {:induction false} SameLength(words: seq<Value>, c: Cons, values: seq<Value>, d: Cons, others: seq<Value>,
                                      end: Cons, tag: nat)
    requires ListAt(words, c, values, end, tag) && ListAt(words, d, others, end, tag) && c.Same(d)
    ensures |values| == |others|
    decreases |values|
  {
    if values != [] && others != [] {
      var next := words[c.index + 1].cons;
      SameLength(words, next, values[1..], next, others[1..], end, tag);
    }
  }

  /** No list is longer than the heap. */
  lemma {:induction false} ListIsShort(words: seq<Value>, c: Cons, values: seq<Value>, end: Cons, tag: nat)
    requires ListAt(words, c, values, end, tag) && |words| > 0
    ensures |values| < |words|
  {
    hide ListAt, Cells;
    var cells := Cells(words, c, values, end, tag);
    forall i, j | 0 <= i < j < |cells| ensures cells[i] != cells[j] {
      var d := CellIsThere(words, c, values, end, tag, i);
      var e := CellIsThere(words, c, values, end, tag, j);
      if cells[i] == cells[j] {
        SameLength(words, d, values[i..], e, values[j..], end, tag);
      }
    }
    forall i | 0 <= i < |cells| ensures cells[i] < |words| - 1 {
      var d := CellIsThere(words, c, values, end, tag, i);
    }
    Distinctness.DistinctBelow(cells, |words| - 1);
  }

  lemma {:induction false} ReverseFirst(args: seq<Value>, pushed: seq<Value>)
    requires args != []
    ensures Reverse(args) + pushed == Reverse(args[1..]) + ([args[0]] + pushed)
  {
  }

  /** Spreading a list pushes its elements in order, so the last one is on top. */
  lemma {:induction false} SpreadPushes(s: Store, fuel: nat, args: seq<Value>, nil: Cons, pushed: seq<Value>,
                                        base: Cons)
    requires |args| < fuel && Binding(s, args, nil, pushed, base)
    ensures var r := SpreadList(s, fuel);
            r.Ok? && Grows(s, r.value) && ListAt(r.value.words, r.value.stack, Reverse(args) + pushed, base, PAIR)
    decreases fuel
  {
    hide ListAt, ShiftOf, Storable;
    RegisterIsNil(s, args, nil, pushed, base);
    if args == [] {
      assert Reverse(args) + pushed == pushed;
    } else {
      ShiftMoves(s, args, nil, pushed, base);
      SpreadPushes(ShiftOf(s).value, fuel - 1, args[1..], nil, [args[0]] + pushed, base);
      ReverseFirst(args, pushed);
    }
  }

  lemma {:induction false} ReverseAppend(a: seq<Value>, b: seq<Value>)
    ensures Reverse(a + b) == Reverse(b) + Reverse(a)
    decreases |a|
  {
    if a == [] {
      assert a + b == b && Reverse(b) + [] == Reverse(b);
    } else {
      assert (a + b)[1..] == a[1..] + b;
      ReverseAppend(a[1..], b);
      assert (Reverse(b) + Reverse(a[1..])) + [a[0]] == Reverse(b) + (Reverse(a[1..]) + [a[0]]);
    }
  }

  /** The arguments of a primitive are on the stack when it runs, the elements of the list of a variadic call after
      those that were there before. */
  lemma {:induction false} PrimitiveGetsArguments(s: Store, instruction: Cons, arity: nat, procedure: Cons, id: int,
                                                  fixed: seq<Value>, more: seq<Value>, nil: Cons, base: Cons)
    requires Calling(s, ParseArity(arity), fixed, more, nil, base)
    requires ProcedureOf(s) == Ok(procedure) && CarOf(s, procedure) == Ok(Number(id))
    requires ConsAtCdr(s, procedure).Ok? && ConsAtCdr(s, procedure).value.tag == PROCEDURE
    ensures var r := CallOf(s, instruction, arity);
            && r.Ok? && r.value == Primitive(r.value.store, id) && Grows(s, r.value.store)
            && ListAt(r.value.store.words, r.value.store.stack, Reverse(fixed + more), base, PAIR)
  {
    hide ProcedureOf, SpreadArgumentsOf, ListAt, Storable;
    if ParseArity(arity).variadic {
      ArgumentsAreSpread(s, ParseArity(arity), fixed, more, nil, base);
    } else {
      assert fixed + more == fixed;
    }
  }

  lemma {:induction false} ArgumentsAreSpread(s: Store, arguments: Arity, fixed: seq<Value>, more: seq<Value>,
                                              nil: Cons, base: Cons)
    requires arguments.variadic && Calling(s, arguments, fixed, more, nil, base)
    ensures var r := SpreadArgumentsOf(s);
            r.Ok? && Grows(s, r.value) && ListAt(r.value.words, r.value.stack, Reverse(fixed + more), base, PAIR)
  {
    hide Reverse, Storable;
    var list :| && ListAt(s.words, list, more, nil, PAIR)
                && ListAt(s.words, s.stack, [Pointer(list)] + Reverse(fixed), base, PAIR);
    assert ([Pointer(list)] + Reverse(fixed))[1..] == Reverse(fixed);
    var s1 := PopOf(s).value.1.(register := list);
    ListIsShort(s.words, list, more, nil, PAIR);
    SpreadPushes(s1, |s1.words|, more, nil, Reverse(fixed), base);
    ReverseAppend(fixed, more);
  }
}
