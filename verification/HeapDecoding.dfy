/** The decoding loop of `vm/src/vm.rs` on a heap that is never collected. It builds ribs in place: the
    popped stack cell becomes the new rib and the dictionary is relinked, and still the heap always holds
    what the stack machine of module `Encoding` computed. */
module HeapDecoding {
  import opened Stores
  import opened RibGraphs
  import opened RibTokens
  import opened Distinctness
  import Machine
  import Encoding

  type Outcome = Machine.Run<Store>

  // ----- the loop body -----

  function RememberOn(s: Store): Outcome {
    var v :- Machine.CarOf(s, s.stack);
    var s' :- Machine.AllocateOf(s, v, Pointer(s.code.SetTag(Machine.PAIR)));
    Machine.Ok(s'.(code := Fresh(s)))
  }

  /** Moves the entry at `index` to the front of the dictionary. */
  function MoveToFront(s: Store, index: nat): Outcome {
    if index == 0 then Machine.Ok(s)
    else
      var cons :- Machine.TailOf(s, s.code, index - 1);
      var head :- Machine.ConsAtCdr(s, cons);
      var tail :- Machine.CdrOf(s, head);
      var s1 := SetCdr(s, head, Pointer(s.code));
      Machine.Ok(SetCdr(s1, cons, tail).(code := head))
  }

  function ReferOn(s: Store, index: nat, keep: bool): Outcome {
    var s1 :- MoveToFront(s, index);
    var v :- Machine.CarOf(s1, s1.code);
    var next :- Machine.ConsAtCdr(s1, s1.code);
    Machine.PushOf(if keep then s1 else s1.(code := next), v)
  }

  function MakeOn(s: Store, tag: nat): Outcome {
    var cons := s.stack;
    var (cdr, s1) :- Machine.PopOf(s);
    var car :- Machine.CarOf(s1, s1.stack);
    if car.IsNever() then Machine.Stuck
    else
      var s2 := SetRawCdr(SetCar(s1, cons, car), cons, cdr.SetTag(tag));
      Machine.Ok(SetCar(s2, s2.stack, Pointer(cons)))
  }

  function StepOn(s: Store, t: Token): Outcome {
    match t
    case Remember => RememberOn(s)
    case Refer(index, keep) => ReferOn(s, index, keep)
    case Make(tag) => MakeOn(s, tag)
    case Push(n) => Machine.PushOf(s, Number(n))
  }

  function RunOn(s: Store, tokens: seq<Token>): Outcome
    decreases |tokens|
  {
    if tokens == [] then Machine.Ok(s)
    else
      var s' :- StepOn(s, tokens[0]);
      RunOn(s', tokens[1..])
  }

  // ----- what the heap holds -----

  /** The cells of the stack, bottom first, of the dictionary, front first, and of the ribs made. */
  datatype Layout = Layout(stack: seq<nat>, dictionary: seq<nat>, ribs: seq<nat>)

  function ValueOf(ribs: seq<nat>, r: Ref): Value
    requires Below(r, |ribs|)
  {
    match r
    case Int(n) => Number(n)
    case Rib(id) => Pointer(Cons(ribs[id], 0))
  }

  predicate HasCell(words: seq<Value>, a: nat, car: Value, cdr: Value) {
    a % 2 == 0 && a + 1 < |words| && words[a] == car && words[a + 1] == cdr
  }

  ghost predicate Disjoint(xs: seq<nat>, ys: seq<nat>) {
    forall i, j :: 0 <= i < |xs| && 0 <= j < |ys| ==> xs[i] != ys[j]
  }

  ghost predicate Separate(l: Layout) {
    && Distinct(l.stack) && Distinct(l.dictionary) && Distinct(l.ribs)
    && Disjoint(l.stack, l.dictionary) && Disjoint(l.stack, l.ribs) && Disjoint(l.dictionary, l.ribs)
  }

  // Lists end in the pointer that never points.
  function StackLink(l: Layout, i: nat): Cons
    requires i <= |l.stack|
  {
    if i == 0 then NEVER else Cons(l.stack[i - 1], 0)
  }

  function DictionaryLink(l: Layout, i: nat): Cons
    requires i <= |l.dictionary|
  {
    if i == |l.dictionary| then NEVER else Cons(l.dictionary[i], 0)
  }

  ghost predicate HoldsStack(words: seq<Value>, m: Encoding.RibMachine, l: Layout) {
    && |l.stack| == |m.stack|
    && forall i :: 0 <= i < |l.stack| ==>
         && Below(m.stack[i], |l.ribs|)
         && HasCell(words, l.stack[i], ValueOf(l.ribs, m.stack[i]), Pointer(StackLink(l, i)))
  }

  ghost predicate HoldsDictionary(words: seq<Value>, m: Encoding.RibMachine, l: Layout) {
    && |l.dictionary| == |m.dictionary|
    && forall i :: 0 <= i < |l.dictionary| ==>
         && Below(m.dictionary[i], |l.ribs|)
         && HasCell(words, l.dictionary[i], ValueOf(l.ribs, m.dictionary[i]), Pointer(DictionaryLink(l, i + 1)))
  }

  ghost predicate HoldsRibs(words: seq<Value>, ribs: Graph, l: Layout) {
    && |l.ribs| == |ribs| && Acyclic(ribs)
    && forall i :: 0 <= i < |l.ribs| ==>
         HasCell(words, l.ribs[i], ValueOf(l.ribs, ribs[i].car), ValueOf(l.ribs, ribs[i].cdr).SetTag(ribs[i].tag))
  }

  ghost predicate Holds(s: Store, m: Encoding.RibMachine, l: Layout) {
    && |s.words| % 2 == 0 && Separate(l)
    && HoldsRibs(s.words, m.ribs, l)
    && HoldsStack(s.words, m, l) && s.stack == StackLink(l, |l.stack|)
    && HoldsDictionary(s.words, m, l) && s.code == DictionaryLink(l, 0)
  }

  // ----- pushing -----

  lemma {:induction false} ValueGrows(ribs: seq<nat>, ribs': seq<nat>, r: Ref)
    requires Below(r, |ribs|) && ribs <= ribs'
    ensures ValueOf(ribs', r) == ValueOf(ribs, r)
  {
  }

  lemma {:induction false} HoldsAllocates(s: Store, m: Encoding.RibMachine, l: Layout, v: Value, w: Value)
    requires Holds(s, m, l)
    ensures Holds(Allocate(s, v, w), m, l)
  {
    var words := Allocate(s, v, w).words;
    forall i | 0 <= i < |l.stack|
      ensures HasCell(words, l.stack[i], ValueOf(l.ribs, m.stack[i]), Pointer(StackLink(l, i)))
    {
      assert HasCell(s.words, l.stack[i], ValueOf(l.ribs, m.stack[i]), Pointer(StackLink(l, i)));
    }
  }

  lemma {:induction false} SeparatePush(l: Layout, a: nat)
    requires Separate(l) && a !in l.stack && a !in l.dictionary && a !in l.ribs
    ensures Separate(l.(stack := l.stack + [a]))
  {
  }

  lemma {:induction false} StackPush(words: seq<Value>, m: Encoding.RibMachine, l: Layout, r: Ref, a: nat)
    requires HoldsStack(words, m, l) && Below(r, |l.ribs|)
    requires HasCell(words, a, ValueOf(l.ribs, r), Pointer(StackLink(l, |l.stack|)))
    ensures HoldsStack(words, m.(stack := m.stack + [r]), l.(stack := l.stack + [a]))
  {
    hide HasCell;
    var m', l' := m.(stack := m.stack + [r]), l.(stack := l.stack + [a]);
    forall i | 0 <= i < |l'.stack|
      ensures Below(m'.stack[i], |l'.ribs|)
      ensures HasCell(words, l'.stack[i], ValueOf(l'.ribs, m'.stack[i]), Pointer(StackLink(l', i)))
    {
      assert i < |l.stack| ==> StackLink(l', i) == StackLink(l, i);
    }
  }

  lemma {:induction false} SameSizes(s: Store, m: Encoding.RibMachine, l: Layout)
    requires Holds(s, m, l)
    ensures |l.stack| == |m.stack| && |l.dictionary| == |m.dictionary| && |l.ribs| == |m.ribs|
  {
  }

  lemma {:induction false} SameDictionaryAndRibs(words: seq<Value>, m: Encoding.RibMachine, l: Layout, st: seq<Ref>,
                                                 cells: seq<nat>)
    requires HoldsDictionary(words, m, l) && HoldsRibs(words, m.ribs, l)
    ensures HoldsDictionary(words, m.(stack := st), l.(stack := cells))
    ensures HoldsRibs(words, m.ribs, l.(stack := cells))
    ensures DictionaryLink(l.(stack := cells), 0) == DictionaryLink(l, 0)
  {
    hide HasCell, ValueOf;
    var l' := l.(stack := cells);
    assert forall i :: 0 <= i <= |l.dictionary| ==> DictionaryLink(l', i) == DictionaryLink(l, i);
  }

  lemma {:induction false} PushHolds(s: Store, m: Encoding.RibMachine, l: Layout, r: Ref)
    requires Holds(s, m, l) && Below(r, |l.ribs|)
    ensures var s' := Machine.PushOf(s, ValueOf(l.ribs, r));
            && s'.Ok?
            && Holds(s'.value, m.(stack := m.stack + [r]), l.(stack := l.stack + [|s.words|]))
  {
    hide Separate, HoldsStack, HoldsDictionary, HoldsRibs, DictionaryLink, ValueOf;
    AddressesAreBelow(s, m, l);
    SeparatePush(l, |s.words|);
    ValueIsNotNever(s.words, m.ribs, l, r);
    var s' := Machine.PushOf(s, ValueOf(l.ribs, r)).value;
    HoldsAllocates(s, m, l, ValueOf(l.ribs, r), Pointer(s.stack.SetTag(Machine.PAIR)));
    assert HasCell(s'.words, |s.words|, ValueOf(l.ribs, r), Pointer(StackLink(l, |l.stack|)));
    hide HasCell;
    StackPush(s'.words, m, l, r, |s.words|);
    SameDictionaryAndRibs(s'.words, m, l, m.stack + [r], l.stack + [|s.words|]);
  }

  lemma {:induction false} AddressesAreBelow(s: Store, m: Encoding.RibMachine, l: Layout)
    requires Holds(s, m, l)
    ensures forall i :: 0 <= i < |l.stack| ==> l.stack[i] < |s.words|
    ensures forall i :: 0 <= i < |l.dictionary| ==> l.dictionary[i] < |s.words|
    ensures forall i :: 0 <= i < |l.ribs| ==> l.ribs[i] < |s.words|
  {
    forall i | 0 <= i < |l.stack| ensures l.stack[i] < |s.words| {
      assert HasCell(s.words, l.stack[i], ValueOf(l.ribs, m.stack[i]), Pointer(StackLink(l, i)));
    }
    forall i | 0 <= i < |l.dictionary| ensures l.dictionary[i] < |s.words| {
      assert HasCell(s.words, l.dictionary[i], ValueOf(l.ribs, m.dictionary[i]), Pointer(DictionaryLink(l, i + 1)));
    }
  }

  lemma {:induction false} ValueIsNotNever(words: seq<Value>, ribs: Graph, l: Layout, r: Ref)
    requires HoldsRibs(words, ribs, l) && Below(r, |l.ribs|)
    ensures !ValueOf(l.ribs, r).IsNever()
  {
    if r.Rib? {
      assert HasCell(words, l.ribs[r.id], ValueOf(l.ribs, ribs[r.id].car),
                     ValueOf(l.ribs, ribs[r.id].cdr).SetTag(ribs[r.id].tag));
    }
  }

  // ----- remembering -----

  lemma {:induction false} SeparateRemember(l: Layout, a: nat)
    requires Separate(l) && a !in l.stack && a !in l.dictionary && a !in l.ribs
    ensures Separate(l.(dictionary := [a] + l.dictionary))
  {
  }

  lemma {:induction false} DictionaryPush(words: seq<Value>, m: Encoding.RibMachine, l: Layout, r: Ref, a: nat)
    requires HoldsDictionary(words, m, l) && Below(r, |l.ribs|)
    requires HasCell(words, a, ValueOf(l.ribs, r), Pointer(DictionaryLink(l, 0)))
    ensures HoldsDictionary(words, m.(dictionary := [r] + m.dictionary), l.(dictionary := [a] + l.dictionary))
  {
    hide HasCell, ValueOf;
    var m', l' := m.(dictionary := [r] + m.dictionary), l.(dictionary := [a] + l.dictionary);
    forall i | 0 <= i < |l'.dictionary|
      ensures Below(m'.dictionary[i], |l'.ribs|)
      ensures HasCell(words, l'.dictionary[i], ValueOf(l'.ribs, m'.dictionary[i]), Pointer(DictionaryLink(l', i + 1)))
    {
      LinkAfterPush(l, a, i);
      hide DictionaryLink;
      if i > 0 {
        DictionaryCell(words, m, l, i - 1);
      }
    }
  }

  lemma {:induction false} LinkAfterPush(l: Layout, a: nat, i: nat)
    requires i <= |l.dictionary|
    ensures DictionaryLink(l.(dictionary := [a] + l.dictionary), i + 1) == DictionaryLink(l, i)
  {
  }

  lemma {:induction false} TopCell(s: Store, m: Encoding.RibMachine, l: Layout)
    requires Holds(s, m, l) && m.stack != []
    ensures var n := |l.stack| - 1;
            && |l.stack| == |m.stack| && s.stack == Cons(l.stack[n], 0) && Below(m.stack[n], |l.ribs|)
            && HasCell(s.words, l.stack[n], ValueOf(l.ribs, m.stack[n]), Pointer(StackLink(l, n)))
  {
  }

  lemma {:induction false} RememberHolds(s: Store, m: Encoding.RibMachine, l: Layout)
    requires Holds(s, m, l) && m.stack != []
    ensures var s' := RememberOn(s);
            && s'.Ok?
            && Holds(s'.value, Encoding.Step(m, Remember), l.(dictionary := [|s.words|] + l.dictionary))
  {
    hide Separate, HoldsStack, HoldsRibs;
    AddressesAreBelow(s, m, l);
    SeparateRemember(l, |s.words|);
    TopCell(s, m, l);
    var r := Encoding.Top(m);
    var v, w := ValueOf(l.ribs, r), Pointer(s.code.SetTag(Machine.PAIR));
    var s' := Allocate(s, v, w);
    ValueIsNotNever(s.words, m.ribs, l, r);
    assert RememberOn(s) == Machine.Ok(s'.(code := Fresh(s)));
    HoldsAllocates(s, m, l, v, w);
    DictionaryPush(s'.words, m, l, r, |s.words|);
    SameStackAndRibs(s'.words, m, l, [r] + m.dictionary, [|s.words|] + l.dictionary);
  }

  // ----- making -----

  /** The heap after the popped cell `a` became a rib and the new top `b` points to it. */
  function MadeWords(words: seq<Value>, a: nat, b: nat, car: Value, cdr: Value): seq<Value>
    requires a + 1 < |words| && b < |words|
  {
    words[a := car][a + 1 := cdr][b := Pointer(Cons(a, 0))]
  }

  lemma {:induction false} MadeElsewhere(words: seq<Value>, a: nat, b: nat, car: Value, cdr: Value,
                                         c: nat, v: Value, w: Value)
    requires a % 2 == 0 && b % 2 == 0 && a + 1 < |words| && b < |words|
    requires HasCell(words, c, v, w) && c != a && c != b
    ensures HasCell(MadeWords(words, a, b, car, cdr), c, v, w)
  {
  }

  lemma {:induction false} SeparateMake(l: Layout)
    requires Separate(l) && |l.stack| >= 2
    ensures var n := |l.stack| - 1; Separate(Layout(l.stack[..n], l.dictionary, l.ribs + [l.stack[n]]))
  {
  }

  function MadeLayout(l: Layout): Layout
    requires |l.stack| >= 2
  {
    var n := |l.stack| - 1;
    Layout(l.stack[..n], l.dictionary, l.ribs + [l.stack[n]])
  }

  lemma {:induction false} MakeStackAt(words: seq<Value>, m: Encoding.RibMachine, l: Layout, car: Value, cdr: Value,
                                       i: nat)
    requires HoldsStack(words, m, l) && |l.stack| >= 2 && Distinct(l.stack) && |m.ribs| == |l.ribs|
    requires i < |l.stack| - 1
    ensures var n := |l.stack| - 1;
            && l.stack[n] % 2 == 0 && l.stack[n - 1] % 2 == 0 && l.stack[n] + 1 < |words| && l.stack[n - 1] < |words|
            && Below(m.stack[i], |l.ribs|)
            && HasCell(MadeWords(words, l.stack[n], l.stack[n - 1], car, cdr), l.stack[i],
                       if i == n - 1 then Pointer(Cons(l.stack[n], 0)) else ValueOf(l.ribs, m.stack[i]),
                       Pointer(StackLink(l, i)))
  {
    hide HoldsStack, Distinct, MadeWords, StackLink;
    var n := |l.stack| - 1;
    StackCell(words, m, l, n);
    StackCell(words, m, l, n - 1);
    StackCell(words, m, l, i);
    DistinctAt(l.stack, n - 1, n);
    DistinctAt(l.stack, i, n);
    if i < n - 1 {
      DistinctAt(l.stack, i, n - 1);
      MadeElsewhere(words, l.stack[n], l.stack[n - 1], car, cdr, l.stack[i], ValueOf(l.ribs, m.stack[i]),
                    Pointer(StackLink(l, i)));
    } else {
      MadeTop(words, l.stack[n], l.stack[n - 1], car, cdr, ValueOf(l.ribs, m.stack[i]), Pointer(StackLink(l, i)));
    }
  }

  lemma {:induction false} StackCell(words: seq<Value>, m: Encoding.RibMachine, l: Layout, i: nat)
    requires HoldsStack(words, m, l) && i < |l.stack|
    ensures |l.stack| == |m.stack| && Below(m.stack[i], |l.ribs|)
    ensures HasCell(words, l.stack[i], ValueOf(l.ribs, m.stack[i]), Pointer(StackLink(l, i)))
  {
  }

  lemma {:induction false} DistinctAt(xs: seq<nat>, i: nat, j: nat)
    requires Distinct(xs) && i < j < |xs|
    ensures xs[i] != xs[j]
  {
  }

  lemma {:induction false} MadeTop(words: seq<Value>, a: nat, b: nat, car: Value, cdr: Value, v: Value, w: Value)
    requires a % 2 == 0 && b % 2 == 0 && a != b && a + 1 < |words| && b < |words| && HasCell(words, b, v, w)
    ensures HasCell(MadeWords(words, a, b, car, cdr), b, Pointer(Cons(a, 0)), w)
  {
  }

  lemma {:induction false} MakeStack(words: seq<Value>, m: Encoding.RibMachine, l: Layout, car: Value, cdr: Value,
                                     tag: nat)
    requires HoldsStack(words, m, l) && |l.stack| >= 2 && Distinct(l.stack) && |m.ribs| == |l.ribs|
    ensures var n := |l.stack| - 1;
            && l.stack[n] % 2 == 0 && l.stack[n - 1] % 2 == 0 && l.stack[n] + 1 < |words| && l.stack[n - 1] < |words|
            && HoldsStack(MadeWords(words, l.stack[n], l.stack[n - 1], car, cdr),
                          Encoding.Step(m, Make(tag)), MadeLayout(l))
  {
    hide HasCell, MadeWords, Distinct;
    var n := |l.stack| - 1;
    var m', l' := Encoding.Step(m, Make(tag)), MadeLayout(l);
    MakeStackAt(words, m, l, car, cdr, 0);
    var words' := MadeWords(words, l.stack[n], l.stack[n - 1], car, cdr);
    forall i | 0 <= i < |l'.stack|
      ensures Below(m'.stack[i], |l'.ribs|)
      ensures HasCell(words', l'.stack[i], ValueOf(l'.ribs, m'.stack[i]), Pointer(StackLink(l', i)))
    {
      MakeStackAt(words, m, l, car, cdr, i);
    }
  }

  lemma {:induction false} MakeDictionary(words: seq<Value>, m: Encoding.RibMachine, l: Layout, car: Value, cdr: Value,
                                          tag: nat)
    requires HoldsDictionary(words, m, l) && |l.stack| == |m.stack| >= 2 && Separate(l)
    requires var n := |l.stack| - 1;
             l.stack[n] % 2 == 0 && l.stack[n - 1] % 2 == 0 && l.stack[n] + 1 < |words| && l.stack[n - 1] < |words|
    ensures var n := |l.stack| - 1;
            HoldsDictionary(MadeWords(words, l.stack[n], l.stack[n - 1], car, cdr),
                            Encoding.Step(m, Make(tag)), MadeLayout(l))
  {
    hide HasCell;
    var n := |l.stack| - 1;
    var a, b := l.stack[n], l.stack[n - 1];
    var words', l' := MadeWords(words, a, b, car, cdr), MadeLayout(l);
    forall i | 0 <= i < |l.dictionary|
      ensures Below(m.dictionary[i], |l'.ribs|)
      ensures HasCell(words', l.dictionary[i], ValueOf(l'.ribs, m.dictionary[i]), Pointer(DictionaryLink(l', i + 1)))
    {
      ValueGrows(l.ribs, l'.ribs, m.dictionary[i]);
      MadeElsewhere(words, a, b, car, cdr, l.dictionary[i], ValueOf(l.ribs, m.dictionary[i]),
                    Pointer(DictionaryLink(l, i + 1)));
    }
  }

  lemma {:induction false} MakeRibs(words: seq<Value>, ribs: Graph, l: Layout, node: Node)
    requires HoldsRibs(words, ribs, l) && |l.stack| >= 2 && Separate(l)
    requires Below(node.car, |ribs|) && Below(node.cdr, |ribs|)
    requires var n := |l.stack| - 1;
             l.stack[n] % 2 == 0 && l.stack[n - 1] % 2 == 0 && l.stack[n] + 1 < |words| && l.stack[n - 1] < |words|
    ensures var n := |l.stack| - 1;
            var car, cdr := ValueOf(l.ribs, node.car), ValueOf(l.ribs, node.cdr).SetTag(node.tag);
            HoldsRibs(MadeWords(words, l.stack[n], l.stack[n - 1], car, cdr), ribs + [node], MadeLayout(l))
  {
    hide HasCell;
    var n := |l.stack| - 1;
    var a, b := l.stack[n], l.stack[n - 1];
    var car, cdr := ValueOf(l.ribs, node.car), ValueOf(l.ribs, node.cdr).SetTag(node.tag);
    var words', l', ribs' := MadeWords(words, a, b, car, cdr), MadeLayout(l), ribs + [node];
    forall i | 0 <= i < |l'.ribs|
      ensures HasCell(words', l'.ribs[i], ValueOf(l'.ribs, ribs'[i].car),
                      ValueOf(l'.ribs, ribs'[i].cdr).SetTag(ribs'[i].tag))
    {
      ValueGrows(l.ribs, l'.ribs, ribs'[i].car);
      ValueGrows(l.ribs, l'.ribs, ribs'[i].cdr);
      if i < |l.ribs| {
        MadeElsewhere(words, a, b, car, cdr, l.ribs[i], ValueOf(l.ribs, ribs[i].car),
                      ValueOf(l.ribs, ribs[i].cdr).SetTag(ribs[i].tag));
      } else {
        MadeItself(words, a, b, car, cdr);
      }
    }
  }

  lemma {:induction false} MadeItself(words: seq<Value>, a: nat, b: nat, car: Value, cdr: Value)
    requires a % 2 == 0 && b % 2 == 0 && a != b && a + 1 < |words| && b < |words|
    ensures HasCell(MadeWords(words, a, b, car, cdr), a, car, cdr)
  {
  }

  /** The popped stack cell turns into the new rib. */
  lemma {:induction false} SameTag(ribs: seq<nat>, r: Ref, tag: nat)
    requires Below(r, |ribs|)
    ensures ValueOf(ribs, r).SetTag(tag) == ValueOf(ribs, r).SetTag(Encoding.TagOf(r, tag))
  {
  }

  lemma {:induction false} MadeLength(words: seq<Value>, a: nat, b: nat, car: Value, cdr: Value)
    requires a + 1 < |words| && b < |words|
    ensures |MadeWords(words, a, b, car, cdr)| == |words|
  {
  }

  lemma {:induction false} DistinctStack(l: Layout)
    requires Separate(l)
    ensures Distinct(l.stack)
  {
  }

  lemma {:induction false} MakeComputes(s: Store, m: Encoding.RibMachine, l: Layout, tag: nat)
    requires Holds(s, m, l) && |m.stack| >= 2
    ensures var n := |l.stack| - 1;
            && |l.stack| == |m.stack| && Below(m.stack[n], |l.ribs|) && Below(m.stack[n - 1], |l.ribs|)
            && l.stack[n] % 2 == 0 && l.stack[n - 1] % 2 == 0
            && l.stack[n] + 1 < |s.words| && l.stack[n - 1] < |s.words|
            && var car, cdr := ValueOf(l.ribs, m.stack[n - 1]), ValueOf(l.ribs, m.stack[n]);
               MakeOn(s, tag) == Machine.Ok(s.(
                 words := MadeWords(s.words, l.stack[n], l.stack[n - 1], car, cdr.SetTag(tag)),
                 stack := Cons(l.stack[n - 1], 0)))
  {
    hide Separate, HoldsStack, HoldsDictionary, HoldsRibs, DictionaryLink, ValueOf;
    SameSizes(s, m, l);
    var n := |l.stack| - 1;
    StackCell(s.words, m, l, n);
    StackCell(s.words, m, l, n - 1);
    ValueIsNotNever(s.words, m.ribs, l, m.stack[n - 1]);
    StackIsDistinct(l, n - 1, n);
  }

  lemma {:induction false} StackIsDistinct(l: Layout, i: nat, j: nat)
    requires Separate(l) && i < j < |l.stack|
    ensures l.stack[i] != l.stack[j]
  {
  }

  lemma {:induction false} MakeHolds(s: Store, m: Encoding.RibMachine, l: Layout, tag: nat)
    requires Holds(s, m, l) && |m.stack| >= 2
    ensures var s' := MakeOn(s, tag);
            s'.Ok? && Holds(s'.value, Encoding.Step(m, Make(tag)), MadeLayout(l))
  {
    hide HasCell, Separate, MadeWords, HoldsStack, HoldsDictionary, HoldsRibs, MakeOn, ValueOf;
    SameSizes(s, m, l);
    var n := |l.stack| - 1;
    StackCell(s.words, m, l, n);
    StackCell(s.words, m, l, n - 1);
    var car, cdr := ValueOf(l.ribs, m.stack[n - 1]), ValueOf(l.ribs, m.stack[n]);
    var node := Node(m.stack[n - 1], m.stack[n], Encoding.TagOf(m.stack[n], tag));
    SameTag(l.ribs, m.stack[n], tag);
    MakeComputes(s, m, l, tag);
    MadeLength(s.words, l.stack[n], l.stack[n - 1], car, cdr.SetTag(tag));
    DistinctStack(l);
    SeparateMake(l);
    MakeStack(s.words, m, l, car, cdr.SetTag(tag), tag);
    MakeDictionary(s.words, m, l, car, cdr.SetTag(tag), tag);
    MakeRibs(s.words, m.ribs, l, node);
  }

  // ----- using the dictionary -----

  lemma {:induction false} DictionaryCell(words: seq<Value>, m: Encoding.RibMachine, l: Layout, i: nat)
    requires HoldsDictionary(words, m, l) && i < |l.dictionary|
    ensures |l.dictionary| == |m.dictionary| && Below(m.dictionary[i], |l.ribs|)
    ensures HasCell(words, l.dictionary[i], ValueOf(l.ribs, m.dictionary[i]), Pointer(DictionaryLink(l, i + 1)))
  {
  }

  lemma {:induction false} WalkDictionary(s: Store, m: Encoding.RibMachine, l: Layout, i: nat, k: nat)
    requires HoldsDictionary(s.words, m, l) && i + k < |l.dictionary|
    ensures Machine.TailOf(s, DictionaryLink(l, i), k) == Machine.Ok(DictionaryLink(l, i + k))
    decreases k
  {
    hide HoldsDictionary;
    if k > 0 {
      DictionaryCell(s.words, m, l, i);
      WalkDictionary(s, m, l, i + 1, k - 1);
    }
  }

  /** The heap after the dictionary cell `head` went to the front and `cons` lost its successor. */
  function RelinkedWords(words: seq<Value>, head: nat, cons: nat, front: Value, tail: Value): seq<Value>
    requires head + 1 < |words| && cons + 1 < |words|
  {
    words[head + 1 := front][cons + 1 := tail]
  }

  lemma {:induction false} RelinkedElsewhere(words: seq<Value>, head: nat, cons: nat, front: Value, tail: Value,
                                             c: nat, v: Value, w: Value)
    requires head % 2 == 0 && cons % 2 == 0 && head + 1 < |words| && cons + 1 < |words|
    requires HasCell(words, c, v, w) && c != head && c != cons
    ensures HasCell(RelinkedWords(words, head, cons, front, tail), c, v, w)
  {
  }

  lemma {:induction false} RelinkedItself(words: seq<Value>, head: nat, cons: nat, front: Value, tail: Value,
                                          v: Value, v': Value, w: Value, w': Value)
    requires head != cons && HasCell(words, head, v, v') && HasCell(words, cons, w, w')
    ensures HasCell(RelinkedWords(words, head, cons, front, tail), head, v, front)
    ensures HasCell(RelinkedWords(words, head, cons, front, tail), cons, w, tail)
  {
  }

  function FrontLayout(l: Layout, index: nat): Layout
    requires index < |l.dictionary|
  {
    l.(dictionary := Encoding.Use(l.dictionary, index, true))
  }

  /** The heap after `MoveToFront`. */
  function FrontWords(words: seq<Value>, l: Layout, index: nat): seq<Value>
    requires 0 < index < |l.dictionary|
    requires l.dictionary[index] + 1 < |words| && l.dictionary[index - 1] + 1 < |words|
  {
    RelinkedWords(words, l.dictionary[index], l.dictionary[index - 1],
                  Pointer(DictionaryLink(l, 0)), Pointer(DictionaryLink(l, index + 1)))
  }

  lemma {:induction false} MoveComputes(s: Store, m: Encoding.RibMachine, l: Layout, index: nat)
    requires Holds(s, m, l) && 0 < index < |l.dictionary|
    ensures l.dictionary[index] + 1 < |s.words| && l.dictionary[index - 1] + 1 < |s.words|
    ensures MoveToFront(s, index)
            == Machine.Ok(s.(words := FrontWords(s.words, l, index), code := Cons(l.dictionary[index], 0)))
  {
    hide HoldsDictionary, HoldsStack, HoldsRibs, Distinct, Disjoint, Machine.TailOf, Acyclic;
    WalkDictionary(s, m, l, 0, index - 1);
    DictionaryCell(s.words, m, l, index - 1);
    DictionaryCell(s.words, m, l, index);
    DistinctAt(l.dictionary, index - 1, index);
  }

  lemma {:induction false} FrontDictionaryAt(words: seq<Value>, m: Encoding.RibMachine, l: Layout, index: nat, i: nat)
    requires HoldsDictionary(words, m, l) && Distinct(l.dictionary) && 0 < index < |l.dictionary| && i < |l.dictionary|
    requires l.dictionary[index] + 1 < |words| && l.dictionary[index - 1] + 1 < |words|
    ensures var d, l' := Encoding.Use(m.dictionary, index, true), FrontLayout(l, index);
            && Below(d[i], |l.ribs|)
            && HasCell(FrontWords(words, l, index), l'.dictionary[i], ValueOf(l.ribs, d[i]),
                       Pointer(DictionaryLink(l', i + 1)))
  {
    hide HoldsDictionary, Distinct, RelinkedWords, HasCell;
    var l' := FrontLayout(l, index);
    var head, cons := l.dictionary[index], l.dictionary[index - 1];
    var front, tail := Pointer(DictionaryLink(l, 0)), Pointer(DictionaryLink(l, index + 1));
    DictionaryCell(words, m, l, index);
    DictionaryCell(words, m, l, index - 1);
    DistinctAt(l.dictionary, index - 1, index);
    RelinkedCells(words, m, l, index);
    if i == 0 {
      assert DictionaryLink(l', 1) == DictionaryLink(l, 0);
    } else if i == index {
      assert DictionaryLink(l', i + 1) == DictionaryLink(l, index + 1);
    } else {
      var j := if i < index then i - 1 else i;
      DictionaryCell(words, m, l, j);
      assert DictionaryLink(l', i + 1) == DictionaryLink(l, j + 1);
      NotEither(l.dictionary, index, j);
      EvenCells(words, m, l, index);
      RelinkedElsewhere(words, head, cons, front, tail, l.dictionary[j], ValueOf(l.ribs, m.dictionary[j]),
                        Pointer(DictionaryLink(l, j + 1)));
    }
  }

  lemma {:induction false} NotEither(xs: seq<nat>, index: nat, j: nat)
    requires Distinct(xs) && 0 < index < |xs| && j < |xs| && j != index && j != index - 1
    ensures xs[j] != xs[index] && xs[j] != xs[index - 1]
  {
  }

  lemma {:induction false} EvenCells(words: seq<Value>, m: Encoding.RibMachine, l: Layout, index: nat)
    requires HoldsDictionary(words, m, l) && 0 < index < |l.dictionary|
    ensures l.dictionary[index] % 2 == 0 && l.dictionary[index - 1] % 2 == 0
    ensures l.dictionary[index] + 1 < |words| && l.dictionary[index - 1] + 1 < |words|
  {
    DictionaryCell(words, m, l, index);
    DictionaryCell(words, m, l, index - 1);
  }

  lemma {:induction false} RelinkedCells(words: seq<Value>, m: Encoding.RibMachine, l: Layout, index: nat)
    requires HoldsDictionary(words, m, l) && Distinct(l.dictionary) && 0 < index < |l.dictionary| == |m.dictionary|
    requires l.dictionary[index] + 1 < |words| && l.dictionary[index - 1] + 1 < |words|
    requires Below(m.dictionary[index], |l.ribs|) && Below(m.dictionary[index - 1], |l.ribs|)
    ensures var words' := FrontWords(words, l, index);
            && HasCell(words', l.dictionary[index], ValueOf(l.ribs, m.dictionary[index]), Pointer(DictionaryLink(l, 0)))
            && HasCell(words', l.dictionary[index - 1], ValueOf(l.ribs, m.dictionary[index - 1]),
                       Pointer(DictionaryLink(l, index + 1)))
  {
    hide HoldsDictionary, Distinct, RelinkedWords, HasCell, DictionaryLink;
    DictionaryCell(words, m, l, index);
    DictionaryCell(words, m, l, index - 1);
    DistinctAt(l.dictionary, index - 1, index);
    RelinkedItself(words, l.dictionary[index], l.dictionary[index - 1],
                   Pointer(DictionaryLink(l, 0)), Pointer(DictionaryLink(l, index + 1)),
                   ValueOf(l.ribs, m.dictionary[index]), Pointer(DictionaryLink(l, index + 1)),
                   ValueOf(l.ribs, m.dictionary[index - 1]), Pointer(DictionaryLink(l, index)));
  }

  lemma {:induction false} SeparateUse(l: Layout, index: nat)
    requires Separate(l) && index < |l.dictionary|
    ensures Separate(FrontLayout(l, index))
  {
    var d := FrontLayout(l, index).dictionary;
    Encoding.UseLength(l.dictionary, index, true);
    forall i | 0 <= i < |d|
      ensures Encoding.Before(index, true, i) < |l.dictionary| && d[i] == l.dictionary[Encoding.Before(index, true, i)]
    {
      Encoding.UseAt(l.dictionary, index, true, i);
    }
  }

  lemma {:induction false} RelinkedOthers(words: seq<Value>, m: Encoding.RibMachine, l: Layout, index: nat)
    requires HoldsDictionary(words, m, l) && Separate(l) && 0 < index < |l.dictionary|
    requires l.dictionary[index] + 1 < |words| && l.dictionary[index - 1] + 1 < |words|
    ensures HoldsStack(words, m, l) ==> HoldsStack(FrontWords(words, l, index), m, l)
    ensures HoldsRibs(words, m.ribs, l) ==> HoldsRibs(FrontWords(words, l, index), m.ribs, l)
  {
    hide RelinkedWords, HasCell, HoldsDictionary;
    var head, cons := l.dictionary[index], l.dictionary[index - 1];
    var front, tail := Pointer(DictionaryLink(l, 0)), Pointer(DictionaryLink(l, index + 1));
    var words' := FrontWords(words, l, index);
    EvenCells(words, m, l, index);
    if HoldsStack(words, m, l) {
      forall i | 0 <= i < |l.stack|
        ensures HasCell(words', l.stack[i], ValueOf(l.ribs, m.stack[i]), Pointer(StackLink(l, i)))
      {
        RelinkedElsewhere(words, head, cons, front, tail, l.stack[i], ValueOf(l.ribs, m.stack[i]),
                          Pointer(StackLink(l, i)));
      }
    }
    if HoldsRibs(words, m.ribs, l) {
      forall i | 0 <= i < |l.ribs|
        ensures HasCell(words', l.ribs[i], ValueOf(l.ribs, m.ribs[i].car),
                        ValueOf(l.ribs, m.ribs[i].cdr).SetTag(m.ribs[i].tag))
      {
        RelinkedElsewhere(words, head, cons, front, tail, l.ribs[i], ValueOf(l.ribs, m.ribs[i].car),
                          ValueOf(l.ribs, m.ribs[i].cdr).SetTag(m.ribs[i].tag));
      }
    }
  }

  // The stack and the ribs do not depend on the dictionary.
  lemma {:induction false} SameStackAndRibs(words: seq<Value>, m: Encoding.RibMachine, l: Layout, d: seq<Ref>,
                                            e: seq<nat>)
    ensures HoldsStack(words, m.(dictionary := d), l.(dictionary := e)) == HoldsStack(words, m, l)
    ensures HoldsRibs(words, m.ribs, l.(dictionary := e)) == HoldsRibs(words, m.ribs, l)
  {
    assert forall i :: 0 <= i <= |l.stack| ==> StackLink(l.(dictionary := e), i) == StackLink(l, i);
  }

  lemma {:induction false} FrontDictionary(words: seq<Value>, m: Encoding.RibMachine, l: Layout, index: nat)
    requires HoldsDictionary(words, m, l) && Distinct(l.dictionary) && 0 < index < |l.dictionary|
    requires l.dictionary[index] + 1 < |words| && l.dictionary[index - 1] + 1 < |words|
    ensures HoldsDictionary(FrontWords(words, l, index), m.(dictionary := Encoding.Use(m.dictionary, index, true)),
                            FrontLayout(l, index))
  {
    hide HasCell, FrontWords, Distinct, DictionaryLink, Encoding.Use;
    var l', d := FrontLayout(l, index), Encoding.Use(m.dictionary, index, true);
    Encoding.UseLength(l.dictionary, index, true);
    Encoding.UseLength(m.dictionary, index, true);
    var words' := FrontWords(words, l, index);
    forall i | 0 <= i < |l'.dictionary|
      ensures Below(d[i], |l'.ribs|)
      ensures HasCell(words', l'.dictionary[i], ValueOf(l'.ribs, d[i]), Pointer(DictionaryLink(l', i + 1)))
    {
      FrontDictionaryAt(words, m, l, index, i);
    }
  }

  lemma {:induction false} MoveHolds(s: Store, m: Encoding.RibMachine, l: Layout, index: nat)
    requires Holds(s, m, l) && index < |l.dictionary|
    ensures |l.dictionary| == |m.dictionary|
    ensures var s' := MoveToFront(s, index);
            && s'.Ok?
            && Holds(s'.value, m.(dictionary := Encoding.Use(m.dictionary, index, true)), FrontLayout(l, index))
  {
    hide Separate, HoldsStack, HoldsRibs, HoldsDictionary, HasCell, FrontWords, ValueOf;
    SameSizes(s, m, l);
    var l', d := FrontLayout(l, index), Encoding.Use(m.dictionary, index, true);
    if index == 0 {
      assert d == m.dictionary && l'.dictionary == l.dictionary;
    } else {
      hide MoveToFront;
      MoveComputes(s, m, l, index);
      var s' := MoveToFront(s, index).value;
      SeparateUse(l, index);
      RelinkedOthers(s.words, m, l, index);
      SameStackAndRibs(s'.words, m, l, d, l'.dictionary);
      DistinctDictionary(l);
      FrontDictionary(s.words, m, l, index);
      UseFront(l.dictionary, index);
    }
  }

  lemma {:induction false} UseFront(xs: seq<nat>, index: nat)
    requires index < |xs|
    ensures var ys := Encoding.Use(xs, index, true); |ys| == |xs| && ys[0] == xs[index]
  {
    Encoding.UseLength(xs, index, true);
  }

  lemma {:induction false} DistinctDictionary(l: Layout)
    requires Separate(l)
    ensures Distinct(l.dictionary)
  {
  }

  lemma {:induction false} SeparateDrop(l: Layout)
    requires Separate(l) && l.dictionary != []
    ensures Separate(l.(dictionary := l.dictionary[1..]))
  {
  }

  lemma {:induction false} DropDictionary(words: seq<Value>, m: Encoding.RibMachine, l: Layout)
    requires HoldsDictionary(words, m, l) && l.dictionary != []
    ensures HoldsDictionary(words, m.(dictionary := m.dictionary[1..]), l.(dictionary := l.dictionary[1..]))
    ensures DictionaryLink(l.(dictionary := l.dictionary[1..]), 0) == DictionaryLink(l, 1)
  {
    hide HasCell, ValueOf;
    var m', l' := m.(dictionary := m.dictionary[1..]), l.(dictionary := l.dictionary[1..]);
    forall i | 0 <= i < |l'.dictionary|
      ensures Below(m'.dictionary[i], |l'.ribs|)
      ensures HasCell(words, l'.dictionary[i], ValueOf(l'.ribs, m'.dictionary[i]), Pointer(DictionaryLink(l', i + 1)))
    {
      LinkAfterDrop(l, i + 1);
      hide DictionaryLink;
      DictionaryCell(words, m, l, i + 1);
    }
  }

  lemma {:induction false} LinkAfterDrop(l: Layout, i: nat)
    requires i < |l.dictionary|
    ensures DictionaryLink(l.(dictionary := l.dictionary[1..]), i) == DictionaryLink(l, i + 1)
  {
  }

  lemma {:induction false} DropHolds(s: Store, m: Encoding.RibMachine, l: Layout)
    requires Holds(s, m, l) && l.dictionary != []
    ensures m.dictionary != []
    ensures var next := Machine.ConsAtCdr(s, s.code);
            && next.Ok?
            && Holds(s.(code := next.value), m.(dictionary := m.dictionary[1..]), l.(dictionary := l.dictionary[1..]))
  {
    hide Separate, HoldsStack, HoldsRibs, HoldsDictionary, ValueOf;
    DictionaryCell(s.words, m, l, 0);
    SeparateDrop(l);
    SameStackAndRibs(s.words, m, l, m.dictionary[1..], l.dictionary[1..]);
    DropDictionary(s.words, m, l);
  }

  // ----- a whole token, a whole run -----

  lemma {:induction false} UseDrops<T>(xs: seq<T>, index: nat)
    requires index < |xs|
    ensures Encoding.Use(xs, index, true)[0] == xs[index]
    ensures Encoding.Use(xs, index, true)[1..] == Encoding.Use(xs, index, false)
  {
  }

  lemma {:induction false} ReferHolds(s: Store, m: Encoding.RibMachine, l: Layout, index: nat, keep: bool)
    returns (l': Layout)
    requires Holds(s, m, l) && index < |m.dictionary|
    ensures var s' := ReferOn(s, index, keep);
            s'.Ok? && l'.ribs == l.ribs && Holds(s'.value, Encoding.Step(m, Refer(index, keep)), l')
  {
    hide Holds, MoveToFront, Encoding.Use, Machine.PushOf;
    SameDictionaryLength(s, m, l);
    MoveHolds(s, m, l, index);
    var s1, l1 := MoveToFront(s, index).value, FrontLayout(l, index);
    var m1 := m.(dictionary := Encoding.Use(m.dictionary, index, true));
    var r := m.dictionary[index];
    UseDrops(m.dictionary, index);
    UseDrops(l.dictionary, index);
    Encoding.UseLength(l.dictionary, index, true);
    FrontCell(s1, m1, l1);
    DropHolds(s1, m1, l1);
    var s2, m2, l2 := s1, m1, l1;
    if !keep {
      s2 := s1.(code := Machine.ConsAtCdr(s1, s1.code).value);
      m2, l2 := m1.(dictionary := m1.dictionary[1..]), l1.(dictionary := l1.dictionary[1..]);
    }
    PushHolds(s2, m2, l2, r);
    l' := l2.(stack := l2.stack + [|s2.words|]);
  }

  lemma {:induction false} SameDictionaryLength(s: Store, m: Encoding.RibMachine, l: Layout)
    requires Holds(s, m, l)
    ensures |l.dictionary| == |m.dictionary| && |l.stack| == |m.stack|
  {
  }

  lemma {:induction false} FrontCell(s: Store, m: Encoding.RibMachine, l: Layout)
    requires Holds(s, m, l) && l.dictionary != []
    ensures m.dictionary != [] && Below(m.dictionary[0], |l.ribs|)
    ensures Machine.CarOf(s, s.code) == Machine.Ok(ValueOf(l.ribs, m.dictionary[0]))
  {
    DictionaryCell(s.words, m, l, 0);
  }

  /** One token on the heap is one token on the stack machine. */
  lemma {:induction false} StepHolds(s: Store, m: Encoding.RibMachine, l: Layout, t: Token) returns (l': Layout)
    requires Holds(s, m, l) && Encoding.CanStep(m, t)
    ensures var s' := StepOn(s, t);
            s'.Ok? && l.ribs <= l'.ribs && Holds(s'.value, Encoding.Step(m, t), l')
  {
    hide Holds, RememberOn, ReferOn, MakeOn, Machine.PushOf;
    SameDictionaryLength(s, m, l);
    match t
    case Remember =>
      RememberHolds(s, m, l);
      l' := l.(dictionary := [|s.words|] + l.dictionary);
    case Refer(index, keep) =>
      l' := ReferHolds(s, m, l, index, keep);
    case Make(tag) =>
      MakeHolds(s, m, l, tag);
      l' := MadeLayout(l);
    case Push(n) =>
      PushHolds(s, m, l, Int(n));
      l' := l.(stack := l.stack + [|s.words|]);
  }

  /** The heap built by a whole run holds exactly the ribs, the stack and the dictionary of the stack
      machine. */
  lemma {:induction false} RunHolds(s: Store, m: Encoding.RibMachine, l: Layout,
                                    tokens: seq<Token>) returns (l': Layout)
    requires Holds(s, m, l) && Encoding.CanRun(m, tokens)
    ensures var s' := RunOn(s, tokens);
            s'.Ok? && l.ribs <= l'.ribs && Holds(s'.value, Encoding.Run(m, tokens), l')
    decreases |tokens|
  {
    hide Holds, StepOn, Encoding.Step;
    if tokens == [] {
      l' := l;
    } else {
      var l1 := StepHolds(s, m, l, tokens[0]);
      l' := RunHolds(StepOn(s, tokens[0]).value, Encoding.Step(m, tokens[0]), l1, tokens[1..]);
    }
  }
}
