/** The start of every program: its code first gives the primitives their names. */
module Booting {
  import opened Stores
  import opened Scheme
  import opened CodeGenerator
  import opened Machine
  import opened Worlds
  import Depth

  type Primitives = seq<(Name, int)>

  const PRIMITIVES: Primitives :=
    [("$$rib", 0), ("$$close", 1), ("$$unbind", 2), ("$$<", 10), ("$$+", 11), ("$$-", 12), ("$$*", 13), ("$$/", 14)]

  predicate IsPrimitiveAt(w: World, v: Value, id: int) {
    v.Pointer? && !v.IsNever() && IsPrimitive(w, v.cons.index, id)
  }

  /** Code that gives names to primitives and goes on with `k`. */
  predicate HasBoot(w: World, i: nat, ps: Primitives, k: Code)
    decreases |ps|
  {
    if ps == [] then HasCode(w, i, k)
    else
      && IsInstruction(w, i, CONSTANT) && IsPrimitiveAt(w, w.fixed[i], ps[0].1)
      && var j := Next(w, i);
         && IsInstruction(w, j, SET) && HasOperand(w, Symbol(ps[0].0), w.fixed[j])
         && HasBoot(w, Next(w, j), ps[1..], k)
  }

  /** The cells of the names are no part of what does not change, and each has its own. */
  ghost predicate HasNames(w: World, words: seq<Value>, ps: Primitives) {
    && (forall i :: 0 <= i < |ps| ==>
          ps[i].0 in w.symbols && w.symbols[ps[i].0] % 2 == 0 && w.symbols[ps[i].0] + 1 < |words|
          && w.symbols[ps[i].0] !in w.fixed)
    && forall i, j :: 0 <= i < j < |ps| ==> w.symbols[ps[i].0] != w.symbols[ps[j].0]
  }

  // What the machine needs to know of null.
  predicate HasNull(w: World, s: Store) {
    && FixedIn(w, s.words) && |s.words| % 2 == 0 && s.no.index == w.no && IsFixed(w, w.no)
    && w.fixed[w.no].Pointer? && w.fixed[w.no].cons.index == w.nil
  }

  lemma {:induction false} NullIsThere(w: World, s: Store)
    requires HasNull(w, s)
    ensures NullOf(s).Ok? && NullOf(s).value.index == w.nil
  {
  }

  /** After a name has been given. */
  function Named(s: Store, y: nat, v: Value, next: Cons): Store
    requires y < |s.words|
  {
    s.(words := s.words[y := v] + [v, Pointer(s.stack.SetTag(PAIR))], stack := s.stack.SetTag(PAIR), code := next)
  }

  lemma {:induction false} PushesPrimitive(w: World, s: Store, i: nat)
    requires HasNull(w, s) && s.code.index == i && IsInstruction(w, i, CONSTANT) && !w.fixed[i].IsNever()
    requires Next(w, i) != w.nil
    ensures StepOf(s) == Run.Ok(s.(words := s.words + [w.fixed[i], Pointer(s.stack.SetTag(PAIR))],
                                   stack := Cons(|s.words|, 0), code := w.fixed[i + 1].cons))
  {
    NullIsThere(w, s);
    assert CarOf(s, s.code) == Run.Ok(w.fixed[i]) && CdrOf(s, s.code) == Run.Ok(w.fixed[i + 1]);
    var s1 := s.(words := s.words + [w.fixed[i], Pointer(s.stack.SetTag(PAIR))], stack := Cons(|s.words|, 0));
    assert PushOf(s, w.fixed[i]) == Run.Ok(s1);
    assert CdrOf(s1, s1.code) == Run.Ok(w.fixed[i + 1]);
    assert NullOf(s1) == NullOf(s);
  }

  lemma {:induction false} SetsName(w: World, s: Store, j: nat, y: nat, v: Value, stack: Cons)
    requires HasNull(w, s) && s.code.index == j && IsInstruction(w, j, SET) && Next(w, j) != w.nil
    requires w.fixed[j].Pointer? && w.fixed[j].cons.index == y && y % 2 == 0 && y + 1 < |s.words| && y !in w.fixed
    requires s.stack.index % 2 == 0 && s.stack.index + 1 < |s.words| && s.words[s.stack.index] == v && !v.IsNever()
    requires s.words[s.stack.index + 1] == Pointer(stack)
    ensures StepOf(s) == Run.Ok(s.(words := s.words[y := v], stack := stack, code := w.fixed[j + 1].cons))
  {
    NullIsThere(w, s);
    assert CarOf(s, s.code) == Run.Ok(w.fixed[j]) && CdrOf(s, s.code) == Run.Ok(w.fixed[j + 1]);
    var s1 := s.(words := s.words[y := v], stack := stack);
    assert PopOf(s) == Run.Ok((v, s.(stack := stack)));
    assert SetOf(s) == Run.Ok(s1);
    assert CdrOf(s1, s1.code) == Run.Ok(w.fixed[j + 1]);
    assert NullOf(s1) == NullOf(s);
  }

  lemma {:induction false} TwoSteps(s: Store, s1: Store, s2: Store)
    requires NullOf(s).Ok? && !s.code.Same(NullOf(s).value) && StepOf(s) == Run.Ok(s1)
    requires NullOf(s1).Ok? && !s1.code.Same(NullOf(s1).value) && StepOf(s1) == Run.Ok(s2)
    ensures StepsOf(s, 2) == Run.Ok(s2)
  {
    hide StepOf, NullOf;
    assert StepsOf(s2, 0) == Run.Ok(s2);
    assert StepsOf(s1, 1) == StepsOf(s2, 0);
  }

  /** Two instructions give a primitive its name. */
  lemma {:induction false} NameGiven(w: World, s: Store, i: nat, y: nat)
    requires HasNull(w, s) && s.code.index == i && IsInstruction(w, i, CONSTANT) && !w.fixed[i].IsNever()
    requires var j := Next(w, i);
             && IsInstruction(w, j, SET) && w.fixed[j].Pointer? && w.fixed[j].cons.index == y && Next(w, j) != w.nil
    requires y % 2 == 0 && y + 1 < |s.words| && y !in w.fixed
    ensures StepsOf(s, 2) == Run.Ok(Named(s, y, w.fixed[i], w.fixed[Next(w, i) + 1].cons))
  {
    hide StepOf;
    var j, v := Next(w, i), w.fixed[i];
    PushesPrimitive(w, s, i);
    var s1 := StepOf(s).value;
    SetsName(w, s1, j, y, v, s.stack.SetTag(PAIR));
    var s2 := Named(s, y, v, w.fixed[j + 1].cons);
    assert s1.words[y := v] == s2.words;
    NullIsThere(w, s);
    NullIsThere(w, s1);
    TwoSteps(s, s1, s2);
  }

  /** Each name stands for its primitive, and nothing else has changed. */
  ghost predicate Booted(w: World, s: Store, s': Store, ps: Primitives, k: Code) {
    && HasNull(w, s') && HasCode(w, s'.code.index, k) && s'.stack.index == s.stack.index && s'.no == s.no
    && |s.words| <= |s'.words|
    && (forall i :: 0 <= i < |ps| ==> ps[i].0 in w.symbols && w.symbols[ps[i].0] < |s'.words|
                                      && IsPrimitiveAt(w, s'.words[w.symbols[ps[i].0]], ps[i].1))
    && forall j :: 0 <= j < |s.words| && (forall i :: 0 <= i < |ps| ==> ps[i].0 in w.symbols && w.symbols[ps[i].0] != j)
         ==> s'.words[j] == s.words[j]
  }

  lemma {:induction false} BootStarts(w: World, i: nat, ps: Primitives, k: Code)
    requires HasBoot(w, i, ps, k) && Continues(k)
    ensures i != w.nil
  {
    if ps == [] {
      CodeStarts(w, i, k);
    }
  }

  lemma {:induction false} CodeStarts(w: World, i: nat, k: Code)
    requires HasCode(w, i, k) && Continues(k)
    ensures i != w.nil
    decreases k
  {
    if k.Nop? {
      CodeStarts(w, i, k.next);
    }
  }

  lemma {:induction false} NoSteps(s: Store)
    ensures StepsOf(s, 0) == Run.Ok(s)
  {
  }

  /** The code at the start of a program names all primitives. */
  lemma {:induction false} BootRuns(w: World, s: Store, ps: Primitives, k: Code) returns (s': Store)
    requires HasNull(w, s) && HasBoot(w, s.code.index, ps, k) && Continues(k) && HasNames(w, s.words, ps)
    ensures StepsOf(s, 2 * |ps|) == Run.Ok(s') && Booted(w, s, s', ps, k)
    decreases |ps|
  {
    hide StepsOf, HasCode, HasNull, HasBoot, HasNames, Booted, IsPrimitiveAt, IsInstruction;
    if ps == [] {
      s' := s;
      NoSteps(s);
      BootIsOver(w, s, k);
    } else {
      BootFirst(w, s, ps, k);
      var i := s.code.index;
      var y, v, j := w.symbols[ps[0].0], w.fixed[i], Next(w, i);
      NameGiven(w, s, i, y);
      var s1 := Named(s, y, v, w.fixed[j + 1].cons);
      NullStays(w, s, y, v, w.fixed[j + 1].cons);
      NamesLeft(w, s.words, s1.words, ps);
      s' := BootRuns(w, s1, ps[1..], k);
      Depth.StepsCompose(s, 2, 2 * |ps[1..]|);
      OneMoreNamed(w, s, s1, s', ps, k, v);
    }
  }

  lemma {:induction false} BootIsOver(w: World, s: Store, k: Code)
    requires HasNull(w, s) && HasBoot(w, s.code.index, [], k)
    ensures Booted(w, s, s, [], k)
  {
  }

  // The first two instructions.
  lemma {:induction false} BootFirst(w: World, s: Store, ps: Primitives, k: Code)
    requires HasBoot(w, s.code.index, ps, k) && Continues(k) && HasNames(w, s.words, ps) && ps != []
    ensures var i := s.code.index;
            && IsFixed(w, i) && HasNext(w, i) && IsInstruction(w, i, CONSTANT)
            && IsPrimitiveAt(w, w.fixed[i], ps[0].1) && !w.fixed[i].IsNever()
            && var j := Next(w, i);
               && IsFixed(w, j) && HasNext(w, j) && IsInstruction(w, j, SET) && Next(w, j) != w.nil
               && HasBoot(w, Next(w, j), ps[1..], k)
               && ps[0].0 in w.symbols && w.fixed[j].Pointer? && w.fixed[j].cons.index == w.symbols[ps[0].0]
               && w.symbols[ps[0].0] % 2 == 0 && w.symbols[ps[0].0] + 1 < |s.words| && w.symbols[ps[0].0] !in w.fixed
  {
    hide HasCode;
    BootStarts(w, Next(w, Next(w, s.code.index)), ps[1..], k);
  }

  lemma {:induction false} NullStays(w: World, s: Store, y: nat, v: Value, next: Cons)
    requires HasNull(w, s) && y < |s.words| && y !in w.fixed
    ensures HasNull(w, Named(s, y, v, next))
  {
  }

  lemma {:induction false} NamesLeft(w: World, words: seq<Value>, words': seq<Value>, ps: Primitives)
    requires HasNames(w, words, ps) && |words| <= |words'| && ps != []
    ensures HasNames(w, words', ps[1..])
  {
  }

  lemma {:induction false} OneMoreNamed(w: World, s: Store, s1: Store, s': Store, ps: Primitives, k: Code, v: Value)
    requires ps != [] && HasNames(w, s.words, ps) && IsPrimitiveAt(w, v, ps[0].1)
    requires s1 == Named(s, w.symbols[ps[0].0], v, s1.code) && Booted(w, s1, s', ps[1..], k)
    ensures Booted(w, s, s', ps, k)
  {
    hide HasCode, HasNull, IsPrimitiveAt;
    var y := w.symbols[ps[0].0];
    assert s'.words[y] == s1.words[y];
    forall i | 0 <= i < |ps|
      ensures ps[i].0 in w.symbols && w.symbols[ps[i].0] < |s'.words|
              && IsPrimitiveAt(w, s'.words[w.symbols[ps[i].0]], ps[i].1)
    {
      if i > 0 {
        assert ps[1..][i - 1] == ps[i];
      }
    }
    forall j | 0 <= j < |s.words| && (forall i :: 0 <= i < |ps| ==> ps[i].0 in w.symbols && w.symbols[ps[i].0] != j)
      ensures s'.words[j] == s.words[j]
    {
      assert w.symbols[ps[0].0] != j;
      assert forall i :: 0 <= i < |ps[1..]| ==> ps[1..][i] == ps[i + 1];
      assert s1.words[j] == s.words[j];
    }
  }
}
