/** The memory of `vm/src/memory.rs`: a heap of two spaces, its roots, and the copying collector. Every
    method is proved against the heap of module `Stores`, which never runs out and is never collected. */
module Memories {
  import opened Stores
  import opened Collection
  import Machine

  datatype Result<+T> = Ok(value: T) | OutOfMemory {
    predicate IsFailure() {
      OutOfMemory?
    }

    function PropagateFailure<U>(): Result<U>
      requires OutOfMemory?
    {
      OutOfMemory
    }

    function Extract(): T
      requires Ok?
    {
      value
    }
  }

  /** The heap of a new memory: null and false. */
  function Blank(): Store {
    var nil := Pointer(Cons(0, 0));
    Store([Number(0), Number(0), nil, nil], NEVER, NEVER, Cons(2, 0), NEVER)
  }

  class Memory {
    const heap: array<Value>
    // The `gc_always` feature: collect at every allocation.
    const gcAlways: bool
    var code: Cons
    var stack: Cons
    var no: Cons
    var register: Cons
    var allocationIndex: nat
    var space: bool
    // The heap that is never collected, where its cells are in this one, and the number of cells that the
    // last collection found reachable or, before the first one, that creation made.
    ghost var model: Store
    ghost var loc: map<nat, nat>
    ghost var live: nat

    function SpaceSize(): nat {
      heap.Length / 2
    }

    function AllocationStart(): nat
      reads this
    {
      if space then SpaceSize() else 0
    }

    function AllocationEnd(): nat
      reads this
    {
      AllocationStart() + allocationIndex
    }

    predicate IsOutOfMemory()
      reads this
    {
      allocationIndex >= SpaceSize()
    }

    ghost function View(): Store
      reads this, heap
    {
      Store(heap[..], code, stack, no, register)
    }

    // The allocated cells, live or not.
    ghost function Cells(): Space
      reads this, heap
    {
      Space(heap[..], AllocationStart(), allocationIndex)
    }

    /** The heap length is a multiple of four, so each space holds whole cells. */
    predicate Aligned()
      reads this
    {
      heap.Length % 4 == 0 && allocationIndex % 2 == 0 && allocationIndex <= SpaceSize()
    }

    /** The model's live cells are in the heap, and nothing else is. */
    ghost predicate Consistent()
      reads this, heap
    {
      && Aligned()
      && Sound(heap[..], AllocationStart(), allocationIndex)
      && |model.words| % 2 == 0
      && Iso(loc, model, View())
      && (forall i :: i in loc ==> InSpace(AllocationStart(), allocationIndex, loc[i]))
    }

    /** Between operations, a full space is full of cells that the last collection found reachable, or that
        creation made. */
    ghost predicate Valid()
      reads this, heap
    {
      Consistent() && (IsOutOfMemory() ==> 2 * live == SpaceSize())
    }

    lemma {:induction false} ValidIsAligned()
      requires Valid()
      ensures Aligned()
    {
    }

    // ----- creation -----

    constructor (words: array<Value>, gcAlways: bool)
      ensures heap == words && this.gcAlways == gcAlways && allocationIndex == 0 && !space
      ensures code == NEVER && stack == NEVER && no == NEVER && register == NEVER
    {
      heap := words;
      this.gcAlways := gcAlways;
      code, stack, no, register := NEVER, NEVER, NEVER, NEVER;
      allocationIndex, space := 0, false;
      model, loc, live := Store([], NEVER, NEVER, NEVER, NEVER), map[], 0;
    }

    /** A new memory holds a fake false value and nothing else. It needs room for two cells in a space and
        does not collect, so in a heap of eight words it is full from the start. */
    static method New(words: array<Value>, gcAlways: bool) returns (r: Result<Memory>)
      requires words.Length % 4 == 0
      modifies words
      ensures r.OutOfMemory? <==> words.Length < 8
      ensures r.Ok? ==>
        && fresh(r.value) && r.value.heap == words && r.value.gcAlways == gcAlways
        && r.value.Valid() && r.value.model == Blank()
        && r.value.allocationIndex == 2 * r.value.live
    {
      hide Iso, Sound;
      var memory := new Memory(words, gcAlways);
      var cons :- memory.AllocateUnchecked(Number(0), Number(0));
      var no :- memory.AllocateUnchecked(Pointer(cons), Pointer(cons));
      memory.no := no;
      memory.model, memory.loc, memory.live := Blank(), map[0 := 0, 2 := 2], 2;
      BlankIsSound(memory.View(), memory.loc);
      r := Ok(memory);
    }

    // ----- allocation -----

    method AllocateUnchecked(car: Value, cdr: Value) returns (r: Result<Cons>)
      requires Aligned()
      modifies heap, this`allocationIndex
      ensures Aligned()
      ensures r.OutOfMemory? <==> old(IsOutOfMemory())
      ensures r.OutOfMemory? ==> heap[..] == old(heap[..]) && allocationIndex == old(allocationIndex)
      ensures r.Ok? ==>
        && r.value == Cons(old(AllocationEnd()), 0)
        && allocationIndex == old(allocationIndex) + 2
        && heap[..] == old(heap[..])[old(AllocationEnd()) := car][old(AllocationEnd()) + 1 := cdr]
    {
      if IsOutOfMemory() {
        return OutOfMemory;
      }
      var cons := Cons(AllocationEnd(), 0);
      allocationIndex := allocationIndex + 2;
      heap[cons.index] := car;
      heap[cons.index + 1] := cdr;
      r := Ok(cons);
    }

    // ----- collection -----

    ghost predicate Collecting(q: Plan, m: Moves, scan: nat, roots: seq<Cons>)
      reads this, heap
    {
      && Aligned()
      && q.start == AllocationStart() && q.size == SpaceSize()
      && allocationIndex == 2 * |m.order|
      && Copying(q, m, heap[..], scan)
      && AllReachable(q, m, roots)
    }

    method CopyCons(cons: Cons, ghost q: Plan, ghost m: Moves, ghost scan: nat, ghost roots: seq<Cons>)
      returns (r: Cons, ghost m': Moves)
      requires Collecting(q, m, scan, roots)
      requires SoundCons(q.from, q.used, cons)
      requires !cons.IsNever() ==> Reachable(q.old_, roots, cons.index)
      modifies heap, this`allocationIndex
      ensures Collecting(q, m', scan, roots)
      ensures ConsMoves(m'.to, cons, r)
      ensures Extends(m, m')
    {
      hide OldCell, NewCell, SoundCell, Ordered, AllReachable, Reachable;
      m' := m;
      if cons.IsNever() {
        r := NEVER.SetTag(cons.tag);
      } else {
        SeeOldCell(q, m, heap[..], scan, cons.index);
        if heap[cons.index].IsNever() {
          // Get a forward pointer.
          var copy := heap[cons.index + 1].cons;
          r := copy.SetTag(cons.tag);
        } else {
          ghost var before := heap[..];
          MoveKeepsCopying(q, m, before, scan, cons.index);
          MoveKeepsReachable(q, m, roots, cons.index);
          var cell := AllocateUnchecked(heap[cons.index], heap[cons.index + 1]);
          // There is always room for a cell that has not moved.
          assert cell.Ok?;
          var copy := cell.value;
          // Set a forward pointer.
          heap[cons.index] := Pointer(NEVER);
          heap[cons.index + 1] := Pointer(copy);
          m' := MoveTo(q, m, cons.index);
          assert heap[..] == MoveWords(q, m, before, cons.index);
          r := copy.SetTag(cons.tag);
        }
      }
    }

    method CopyValue(value: Value, ghost q: Plan, ghost m: Moves, ghost scan: nat, ghost roots: seq<Cons>)
      returns (r: Value, ghost m': Moves)
      requires Collecting(q, m, scan, roots)
      requires SoundValue(q.from, q.used, value)
      requires forall i :: Points(value, i) ==> Reachable(q.old_, roots, i)
      modifies heap, this`allocationIndex
      ensures Collecting(q, m', scan, roots)
      ensures ValueMoves(m'.to, value, r)
      ensures Extends(m, m')
    {
      match value
      case Pointer(cons) =>
        assert !cons.IsNever() ==> Points(value, cons.index);
        var copy;
        copy, m' := CopyCons(cons, q, m, scan, roots);
        r := Pointer(copy);
      case Number(_) =>
        r, m' := value, m;
    }

    method CopyRoots(cons: Cons, ghost q: Plan, ghost roots: seq<Cons>) returns (r: Cons, ghost m: Moves)
      requires Collecting(q, Moves([], map[]), 0, roots)
      requires roots == Roots(View()) + [cons]
      requires forall c <- roots :: SoundCons(q.from, q.used, c)
      modifies heap, this`allocationIndex, this`code, this`stack, this`no, this`register
      ensures Collecting(q, m, 0, roots)
      ensures RootsMove(m.to, roots, Roots(View()) + [r])
    {
      hide OldCell, NewCell, SoundCell, Ordered, AllReachable, Reachable, Copying, IsPlan;
      RootsAreReachable(q.old_, roots);
      assert roots[0] == code && roots[1] == stack && roots[2] == no && roots[3] == register && roots[4] == cons;
      m := Moves([], map[]);
      code, m := CopyCons(code, q, m, 0, roots);
      stack, m := CopyCons(stack, q, m, 0, roots);
      no, m := CopyCons(no, q, m, 0, roots);
      register, m := CopyCons(register, q, m, 0, roots);
      r, m := CopyCons(cons, q, m, 0, roots);
    }

    method ScanSpace(ghost q: Plan, ghost m: Moves, ghost roots: seq<Cons>) returns (ghost m': Moves)
      requires Collecting(q, m, 0, roots)
      modifies heap, this`allocationIndex
      ensures Collecting(q, m', allocationIndex, roots)
      ensures Extends(m, m')
    {
      hide OldCell, NewCell, SoundCell, Ordered, AllReachable, Reachable;
      m' := m;
      var index := AllocationStart();
      while index < AllocationEnd()
        invariant AllocationStart() <= index <= AllocationEnd()
        invariant Collecting(q, m', index - AllocationStart(), roots)
        invariant Extends(m, m')
        decreases AllocationStart() + SpaceSize() - index
      {
        ghost var scan := index - AllocationStart();
        NextWord(q, m', heap[..], scan, roots);
        ghost var w, m0 := heap[..], m';
        var value;
        value, m' := CopyValue(heap[index], q, m', scan, roots);
        NextWordStays(q, m0, w, m', heap[..], scan);
        ScanKeepsCopying(q, m', heap[..], scan, value);
        ghost var before := heap[..];
        heap[index] := value;
        assert heap[..] == before[index := value];
        index := index + 1;
      }
    }

    /** Moves every live cell to the other space. The new heap is isomorphic to the old one, and its cells
        are exactly the cells that were reachable from the roots and from `cons`, which may be `NEVER`. */
    method CopyLive(cons: Cons) returns (r: Cons, ghost move: map<nat, nat>)
      requires Aligned() && Sound(heap[..], AllocationStart(), allocationIndex)
      requires forall c <- Roots(View()) + [cons] :: SoundCons(AllocationStart(), allocationIndex, c)
      modifies this, heap
      ensures Aligned() && Sound(heap[..], AllocationStart(), allocationIndex)
      ensures Iso(move, old(View()), View()) && ConsMoves(move, cons, r)
      ensures forall i :: i in move <==> Reachable(old(heap[..]), old(Roots(View())) + [cons], i)
      ensures forall i :: i in move ==> InSpace(AllocationStart(), allocationIndex, move[i])
      ensures allocationIndex == 2 * |move|
      ensures Collected(move, old(Cells()), Cells())
      ensures model == old(model) && loc == old(loc) && live == old(live)
    {
      hide OldCell, NewCell, Reachable, Ordered, Iso, Sound, Collected;
      ghost var before, roots := View(), Roots(View()) + [cons];
      ghost var q := Plan(heap[..], AllocationStart(), allocationIndex, if space then 0 else SpaceSize(), SpaceSize());
      StartCopying(q, roots);
      allocationIndex := 0;
      space := !space;
      ghost var m;
      r, m := CopyRoots(cons, q, roots);
      ghost var m' := ScanSpace(q, m, roots);
      RootsStayMoved(m, m', roots, Roots(View()) + [r]);
      DoneCopying(q, m', before, View(), cons, r);
      MovedSurvive(q, m', before, View());
      move := m'.to;
    }

    /** Collects garbage without a trace in the model. Afterwards the allocated cells are exactly the
        reachable ones. */
    method CollectGarbages(cons: Cons, ghost a: Cons) returns (r: Cons)
      requires Consistent() && ConsMoves(loc, a, cons)
      modifies this, heap
      ensures Valid() && model == old(model)
      ensures ConsMoves(loc, a, r)
      ensures allocationIndex == 2 * live
      ensures !cons.IsNever() ==> Descends(old(Cells()), Cells(), cons.index, r.index)
    {
      hide Iso, Sound, Reachable, Collected, Descends;
      RootsAreSound(loc, model, View(), a, cons, AllocationStart(), allocationIndex);
      ghost var before := View();
      ghost var move;
      r, move := CopyLive(cons);
      if !cons.IsNever() {
        CollectedDescends(move, old(Cells()), Cells(), cons, r);
      }
      IsoComposes(loc, move, model, before, View());
      NotNever(loc, model, before);
      ValueComposes(loc, move, Pointer(a), Pointer(cons), Pointer(r));
      loc := Compose(loc, move);
      live := |move|;
    }

    /** Allocates a cell. It fails only when the last collection, or creation, left the whole space live. */
    method Allocate(car: Value, cdr: Value, ghost v: Value, ghost w: Value) returns (r: Result<Cons>)
      requires Valid() && ValueMoves(loc, v, car) && ValueMoves(loc, w, cdr) && !v.IsNever()
      modifies this, heap
      ensures Valid()
      ensures r.OutOfMemory? ==> model == old(model) && 2 * live == SpaceSize() && Cells() == old(Cells())
      ensures r.Ok? ==>
        && End(old(Cells())) + 1 < heap.Length
        && Descends(WithCell(old(Cells()), car, cdr), Cells(), End(old(Cells())), r.value.index)
      ensures r.Ok? ==> model == Stores.Allocate(old(model), v, w) && ConsMoves(loc, Fresh(old(model)), r.value)
    {
      hide Iso, Sound, Descends, ValueMoves, InSpace;
      ghost var before, start, used := View(), AllocationStart(), allocationIndex;
      var cons :- AllocateUnchecked(car, cdr);
      CellIsModelled(loc, model, before, View(), start, used, v, car, w, cdr);
      loc := loc[|model.words| := cons.index];
      model := Stores.Allocate(model, v, w);
      NewCellDescends(old(Cells()), car, cdr);
      assert Cells() == WithCell(old(Cells()), car, cdr);
      if IsOutOfMemory() || gcAlways {
        cons := CollectGarbages(cons, Fresh(old(model)));
      }
      r := Ok(cons);
    }

    // ----- reading and writing cells -----

    method Car(c: Cons, ghost a: Cons) returns (v: Value)
      requires Valid() && ConsMoves(loc, a, c) && !a.IsNever()
      ensures IsCell(model, a) && ValueMoves(loc, Stores.Car(model, a), v)
    {
      hide Iso, Sound;
      IsoReads(loc, model, View(), a, c);
      v := heap[c.index];
    }

    method Cdr(c: Cons, ghost a: Cons) returns (v: Value)
      requires Valid() && ConsMoves(loc, a, c) && !a.IsNever()
      ensures IsCell(model, a) && ValueMoves(loc, Stores.Cdr(model, a), v)
    {
      hide Iso, Sound;
      IsoReads(loc, model, View(), a, c);
      v := heap[c.index + 1];
    }

    method SetCar(c: Cons, value: Value, ghost a: Cons, ghost v: Value)
      requires Valid() && ConsMoves(loc, a, c) && !a.IsNever() && ValueMoves(loc, v, value) && !v.IsNever()
      modifies heap, this`model
      ensures Valid()
      ensures IsCell(old(model), a) && model == Stores.SetCar(old(model), a, v)
    {
      hide Iso, Sound;
      ghost var before := View();
      IsoReads(loc, model, before, a, c);
      IsoSetCar(loc, model, before, a, c, v, value);
      ValueIsSound(loc, v, value, AllocationStart(), allocationIndex);
      SoundSetCar(before.words, AllocationStart(), allocationIndex, c.index, value);
      heap[c.index] := value;
      assert heap[..] == before.words[c.index := value];
      model := Stores.SetCar(model, a, v);
    }

    method SetRawCdr(c: Cons, value: Value, ghost a: Cons, ghost v: Value)
      requires Valid() && ConsMoves(loc, a, c) && !a.IsNever() && ValueMoves(loc, v, value)
      modifies heap, this`model
      ensures Valid()
      ensures IsCell(old(model), a) && model == Stores.SetRawCdr(old(model), a, v)
    {
      hide Iso, Sound;
      ghost var before := View();
      IsoReads(loc, model, before, a, c);
      IsoSetRawCdr(loc, model, before, a, c, v, value);
      ValueIsSound(loc, v, value, AllocationStart(), allocationIndex);
      SoundSetCdr(before.words, AllocationStart(), allocationIndex, c.index, value);
      heap[c.index + 1] := value;
      assert heap[..] == before.words[c.index + 1 := value];
      model := Stores.SetRawCdr(model, a, v);
    }

    method SetCdr(c: Cons, value: Value, ghost a: Cons, ghost v: Value)
      requires Valid() && ConsMoves(loc, a, c) && !a.IsNever() && ValueMoves(loc, v, value)
      modifies heap, this`model
      ensures Valid()
      ensures IsCell(old(model), a) && model == Stores.SetCdr(old(model), a, v)
    {
      // Keep an existing tag.
      var cdr := Cdr(c, a);
      SetRawCdr(c, value.SetTag(cdr.Tag()), a, v.SetTag(Stores.Cdr(model, a).Tag()));
    }

    // ----- roots -----

    method SetCode(c: Cons, ghost a: Cons)
      requires Valid() && ConsMoves(loc, a, c)
      modifies this`code, this`model
      ensures Valid() && model == old(model).(code := a)
    {
      code := c;
      model := model.(code := a);
    }

    method SetStack(c: Cons, ghost a: Cons)
      requires Valid() && ConsMoves(loc, a, c)
      modifies this`stack, this`model
      ensures Valid() && model == old(model).(stack := a)
    {
      stack := c;
      model := model.(stack := a);
    }

    method SetFalse(c: Cons, ghost a: Cons)
      requires Valid() && ConsMoves(loc, a, c)
      modifies this`no, this`model
      ensures Valid() && model == old(model).(no := a)
    {
      no := c;
      model := model.(no := a);
    }

    method SetRegister(c: Cons, ghost a: Cons)
      requires Valid() && ConsMoves(loc, a, c)
      modifies this`register, this`model
      ensures Valid() && model == old(model).(register := a)
    {
      register := c;
      model := model.(register := a);
    }

    // ----- roots read with their counterparts in the model -----

    method Code() returns (c: Cons)
      requires Valid()
      ensures c == code && ConsMoves(loc, model.code, c)
    {
      c := code;
    }

    method Stack() returns (c: Cons)
      requires Valid()
      ensures c == stack && ConsMoves(loc, model.stack, c)
    {
      c := stack;
    }

    method Register() returns (c: Cons)
      requires Valid()
      ensures c == register && ConsMoves(loc, model.register, c)
    {
      c := register;
    }

    method False() returns (c: Cons)
      requires Valid()
      ensures c == no && ConsMoves(loc, model.no, c)
    {
      c := no;
    }

    /** Whether two pointers are equal is the same in the heap and in the model. */
    lemma {:induction false} SameInModel(a: Value, v: Value, b: Value, w: Value)
      requires Valid() && ValueMoves(loc, a, v) && ValueMoves(loc, b, w)
      ensures v.Same(w) <==> a.Same(b)
    {
      NotNever(loc, model, View());
      SameMoves(loc, a, b, v, w);
    }

    // ----- lists -----

    method CarCons(c: Cons, ghost a: Cons) returns (d: Cons)
      requires Valid() && ConsMoves(loc, a, c) && Machine.ConsAtCar(model, a).Ok?
      ensures ConsMoves(loc, Machine.ConsAtCar(model, a).value, d)
    {
      var v := Car(c, a);
      d := v.cons;
    }

    method CdrCons(c: Cons, ghost a: Cons) returns (d: Cons)
      requires Valid() && ConsMoves(loc, a, c) && Machine.ConsAtCdr(model, a).Ok?
      ensures ConsMoves(loc, Machine.ConsAtCdr(model, a).value, d)
    {
      var v := Cdr(c, a);
      d := v.cons;
    }

    method Null() returns (c: Cons)
      requires Valid() && Machine.NullOf(model).Ok?
      ensures ConsMoves(loc, Machine.NullOf(model).value, c)
    {
      c := CarCons(no, model.no);
    }

    method Push(value: Value, ghost v: Value) returns (r: Result<()>)
      requires Valid() && ValueMoves(loc, v, value) && Machine.PushOf(model, v).Ok?
      modifies this, heap
      ensures Valid()
      ensures r.OutOfMemory? ==> 2 * live == SpaceSize()
      ensures r.Ok? ==> Machine.PushOf(old(model), v) == Machine.Ok(model)
    {
      hide Iso, Sound;
      var below := Stack();
      var c :- Allocate(value, Pointer(below.SetTag(Machine.PAIR)), v, Pointer(model.stack.SetTag(Machine.PAIR)));
      SetStack(c, Fresh(old(model)));
      r := Ok(());
    }

    method Pop() returns (v: Value)
      requires Valid() && Machine.PopOf(model).Ok?
      modifies this`stack, this`model
      ensures Valid()
      ensures Machine.PopOf(old(model)).value.1 == model
      ensures ValueMoves(loc, Machine.PopOf(old(model)).value.0, v)
    {
      hide Iso, Sound;
      var top := Stack();
      v := Car(top, model.stack);
      var c := CdrCons(top, model.stack);
      SetStack(c, Machine.ConsAtCdr(model, model.stack).value);
    }

    method Tail(list: Cons, index: nat, ghost a: Cons) returns (c: Cons)
      requires Valid() && ConsMoves(loc, a, list) && Machine.TailOf(model, a, index).Ok?
      ensures ConsMoves(loc, Machine.TailOf(model, a, index).value, c)
    {
      hide Iso, Sound;
      c := list;
      ghost var b := a;
      var i := index;
      while i > 0
        invariant ConsMoves(loc, b, c) && Machine.TailOf(model, a, index) == Machine.TailOf(model, b, i)
      {
        c := CdrCons(c, b);
        b := Machine.ConsAtCdr(model, b).value;
        i := i - 1;
      }
    }
  }

  lemma {:induction false} BlankIsSound(s: Store, f: map<nat, nat>)
    requires |s.words| >= 4 && s == Blank().(words := Blank().words + s.words[4..]) && f == map[0 := 0, 2 := 2]
    ensures Sound(s.words, 0, 4) && Iso(f, Blank(), s)
  {
  }

  lemma {:induction false} SoundSetCar(words: seq<Value>, start: nat, used: nat, i: nat, v: Value)
    requires Sound(words, start, used) && InSpace(start, used, i) && SoundValue(start, used, v) && !v.IsNever()
    ensures i < |words| && Sound(words[i := v], start, used)
  {
    forall j: nat | InSpace(start, used, j) ensures SoundCell(words[i := v], start, used, j) {
      assert SoundCell(words, start, used, j);
    }
  }

  lemma {:induction false} SoundSetCdr(words: seq<Value>, start: nat, used: nat, i: nat, v: Value)
    requires Sound(words, start, used) && InSpace(start, used, i) && SoundValue(start, used, v)
    ensures i + 1 < |words| && Sound(words[i + 1 := v], start, used)
  {
    forall j: nat | InSpace(start, used, j) ensures SoundCell(words[i + 1 := v], start, used, j) {
      assert SoundCell(words, start, used, j);
    }
  }

  lemma {:induction false} ValueIsSound(f: map<nat, nat>, v: Value, w: Value, start: nat, used: nat)
    requires ValueMoves(f, v, w)
    requires forall i :: i in f ==> InSpace(start, used, f[i])
    requires start % 2 == 0
    ensures SoundValue(start, used, w) && (w.IsNever() ==> v.IsNever())
  {
  }

  lemma {:induction false} RootsAreSound(f: map<nat, nat>, a: Store, b: Store, c: Cons, d: Cons, start: nat, used: nat)
    requires Iso(f, a, b) && ConsMoves(f, c, d)
    requires forall i :: i in f ==> InSpace(start, used, f[i])
    ensures forall e <- Roots(b) + [d] :: SoundCons(start, used, e)
  {
  }

  /** A new cell on both sides. */
  lemma {:induction false} CellIsModelled(f: map<nat, nat>, a: Store, b: Store, b': Store, start: nat, used: nat,
                                          v: Value, car: Value, w: Value, cdr: Value)
    requires Iso(f, a, b) && Sound(b.words, start, used) && |a.words| % 2 == 0 && start + used + 2 <= |b.words|
    requires forall i :: i in f ==> InSpace(start, used, f[i])
    requires ValueMoves(f, v, car) && ValueMoves(f, w, cdr) && !v.IsNever()
    requires b' == b.(words := b.words[start + used := car][start + used + 1 := cdr])
    ensures Sound(b'.words, start, used + 2)
    ensures var f' := f[|a.words| := start + used];
            Iso(f', Stores.Allocate(a, v, w), b') && forall i :: i in f' ==> InSpace(start, used + 2, f'[i])
  {
    assert start % 2 == 0 && used % 2 == 0;
    hide Iso, Sound;
    ValueIsSound(f, v, car, start, used);
    ValueIsSound(f, w, cdr, start, used);
    SoundGrows(b.words, start, used, car, cdr);
    IsoAllocate(f, a, b, b', start + used, v, car, w, cdr);
  }

  lemma {:induction false} SoundGrows(words: seq<Value>, start: nat, used: nat, v: Value, w: Value)
    requires Sound(words, start, used) && start + used + 2 <= |words|
    requires SoundValue(start, used, v) && !v.IsNever() && SoundValue(start, used, w)
    ensures Sound(words[start + used := v][start + used + 1 := w], start, used + 2)
  {
    var words', used' := words[start + used := v][start + used + 1 := w], used + 2;
    forall i: nat | InSpace(start, used', i) ensures SoundCell(words', start, used', i) {
      if i < start + used {
        assert SoundCell(words, start, used, i);
      }
    }
  }
}
