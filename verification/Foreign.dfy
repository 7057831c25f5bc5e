/** The handles of foreign objects in `dynamic/src/primitive_set.rs`: a table of objects whose slots are named by
    cells of a heap that is collected on its own. */
module Foreign {
  import opened Options
  import opened Stores
  import opened Collection
  import opened Memories
  import Machine

  const FOREIGN: nat := 65535

  // ----- handles -----

  /** An allocated cell, live or not, that is marked as foreign. */
  predicate IsHandle(a: Space, i: nat) {
    Allocated(a, i) && a.words[i + 1].Tag() == FOREIGN
  }

  ghost predicate Names(a: Space, i: nat, n: nat) {
    IsHandle(a, i) && a.words[i] == Number(n)
  }

  ghost predicate IsNamed(a: Space, n: nat) {
    exists i: nat :: Names(a, i, n)
  }

  /** The slot that a handle names holds its object. */
  ghost predicate IsFilled<T>(a: Space, values: seq<Option<T>>, owner: map<nat, T>, i: nat)
    requires i < |a.words|
  {
    var v := a.words[i];
    v.Number? && 0 <= v.n < |values| && i in owner && values[v.n] == Some(owner[i])
  }

  /** No handle dangles, and no two handles name the same slot. `owner` says what object each handle was made
      for. */
  ghost predicate Owned<T>(a: Space, values: seq<Option<T>>, owner: map<nat, T>) {
    && (forall i: nat :: IsHandle(a, i) ==> IsFilled(a, values, owner, i))
    && (forall i: nat, j: nat :: IsHandle(a, i) && IsHandle(a, j) && i != j ==> a.words[i] != a.words[j])
  }

  lemma {:induction false} NamedIsFilled<T>(a: Space, values: seq<Option<T>>, owner: map<nat, T>, n: nat)
    requires Owned(a, values, owner) && IsNamed(a, n)
    ensures n < |values| && values[n].Some?
  {
    var i: nat :| Names(a, i, n);
    assert IsFilled(a, values, owner, i);
  }

  /** Slots that no handle names may be filled with anything. */
  lemma {:induction false} OwnedKept<T>(a: Space, values: seq<Option<T>>, values': seq<Option<T>>,
                                            owner: map<nat, T>)
    requires Owned(a, values, owner) && |values| <= |values'|
    requires forall n :: 0 <= n < |values| && IsNamed(a, n) ==> values'[n] == values[n]
    ensures Owned(a, values', owner)
  {
    forall i: nat | IsHandle(a, i) ensures IsFilled(a, values', owner, i) {
      assert IsFilled(a, values, owner, i);
      assert Names(a, i, a.words[i].n);
    }
  }

  // ----- what the rest of the system does to handles -----

  /** Every handle of `b` was a handle of `a` of its own, the one that `f` gives, for the same slot and the same
      object: nothing forges a handle or changes one. */
  ghost predicate Honest<T(!new)>(a: Space, owner: map<nat, T>, b: Space, owner': map<nat, T>, f: map<nat, nat>) {
    && (forall j: nat :: IsHandle(b, j) ==> IsKept(a, owner, b, owner', f, j))
    && (forall i: nat, j: nat :: IsHandle(b, i) && IsHandle(b, j) && i != j && i in f && j in f ==> f[i] != f[j])
  }

  ghost predicate IsKept<T(!new)>(a: Space, owner: map<nat, T>, b: Space, owner': map<nat, T>, f: map<nat, nat>,
                                  j: nat)
    requires j < |b.words|
  {
    && j in f && IsHandle(a, f[j]) && b.words[j] == a.words[f[j]]
    && f[j] in owner && j in owner' && owner'[j] == owner[f[j]]
  }

  lemma {:induction false} HonestKeepsOwned<T(!new)>(a: Space, owner: map<nat, T>, b: Space, owner': map<nat, T>,
                                                         f: map<nat, nat>, values: seq<Option<T>>)
    requires Owned(a, values, owner) && Honest(a, owner, b, owner', f)
    ensures Owned(b, values, owner')
  {
    forall j: nat | IsHandle(b, j) ensures IsFilled(b, values, owner', j) {
      assert IsKept(a, owner, b, owner', f, j);
      assert IsFilled(a, values, owner, f[j]);
    }
    forall i: nat, j: nat | IsHandle(b, i) && IsHandle(b, j) && i != j ensures b.words[i] != b.words[j] {
      assert IsKept(a, owner, b, owner', f, i) && IsKept(a, owner, b, owner', f, j);
    }
  }

  // The objects of the handles that `f` traces back.
  function Traced<T>(owner: map<nat, T>, f: map<nat, nat>): map<nat, T> {
    map j | j in f && f[j] in owner :: owner[f[j]]
  }

  /** Collections are honest. */
  lemma {:induction false} SurvivalIsHonest<T(!new)>(a: Space, owner: map<nat, T>, values: seq<Option<T>>,
                                                         b: Space, f: map<nat, nat>)
    requires Survives(a, b, f) && Owned(a, values, owner)
    ensures Honest(a, owner, b, Traced(owner, f), f)
  {
    forall j: nat | IsHandle(b, j) ensures IsKept(a, owner, b, Traced(owner, f), f, j) {
      assert CellSurvives(a.words, b.words, f[j], j);
      assert IsHandle(a, f[j]);
      assert IsFilled(a, values, owner, f[j]);
    }
  }

  /** A write that neither changes the slot of a handle nor makes a handle. */
  ghost predicate SparesHandles(a: Space, i: nat, v: Value) {
    i < |a.words| && if i % 2 == 0 then !IsHandle(a, i) else v.Tag() != FOREIGN || IsHandle(a, i - 1)
  }

  /** So is such a write. */
  lemma {:induction false} WriteIsHonest<T(!new)>(a: Space, owner: map<nat, T>, values: seq<Option<T>>, i: nat,
                                                      v: Value)
    returns (f: map<nat, nat>)
    requires Owned(a, values, owner) && SparesHandles(a, i, v)
    ensures Honest(a, owner, a.(words := a.words[i := v]), owner, f)
  {
    var b := a.(words := a.words[i := v]);
    f := map j: nat | j < |a.words| && IsHandle(b, j) :: j;
    forall j: nat | IsHandle(b, j) ensures IsKept(a, owner, b, owner, f, j) {
      assert IsHandle(a, j);
      assert IsFilled(a, values, owner, j);
    }
  }

  /** And so is the allocation of a cell that is not marked as foreign. */
  lemma {:induction false} AllocationIsHonest<T(!new)>(a: Space, owner: map<nat, T>, values: seq<Option<T>>,
                                                           car: Value, cdr: Value)
    returns (f: map<nat, nat>)
    requires Owned(a, values, owner) && End(a) + 1 < |a.words| && End(a) % 2 == 0 && cdr.Tag() != FOREIGN
    ensures Honest(a, owner, WithCell(a, car, cdr), owner, f)
  {
    var b := WithCell(a, car, cdr);
    f := map j: nat | j < |b.words| && IsHandle(b, j) :: j;
    forall j: nat | IsHandle(b, j) ensures IsKept(a, owner, b, owner, f, j) {
      assert IsHandle(a, j);
      assert IsFilled(a, values, owner, j);
    }
  }

  /** A new handle for a slot that none names. */
  lemma {:induction false} HandleAdded<T>(a: Space, values: seq<Option<T>>, owner: map<nat, T>, n: nat, item: T,
                                              cdr: Value)
    requires Owned(a, values, owner) && !IsNamed(a, n) && n < |values| && values[n] == Some(item)
    requires End(a) + 1 < |a.words| && End(a) % 2 == 0 && cdr.Tag() == FOREIGN
    ensures Owned(WithCell(a, Number(n), cdr), values, owner[End(a) := item])
  {
    var b, owner' := WithCell(a, Number(n), cdr), owner[End(a) := item];
    forall i: nat | IsHandle(b, i) ensures IsFilled(b, values, owner', i) {
      if i != End(a) {
        assert IsHandle(a, i);
        assert IsFilled(a, values, owner, i);
      }
    }
    forall i: nat, j: nat | IsHandle(b, i) && IsHandle(b, j) && i != j ensures b.words[i] != b.words[j] {
      assert if i != End(a) then IsHandle(a, i) && !Names(a, i, n) else IsHandle(a, j) && !Names(a, j, n);
    }
  }

  // ----- the table -----

  class DynamicPrimitiveSet<T(!new, ==)> {
    var values: seq<Option<T>>
    // The objects that handles were made for.
    ghost var owner: map<nat, T>

    constructor ()
      ensures values == [] && owner == map[]
    {
      values := [];
      owner := map[];
    }

    ghost predicate Owns(m: Memory)
      reads this, m, m.heap
    {
      m.Aligned() && Owned(m.Cells(), values, owner)
    }

    /** Empties the slots that no handle in the heap names. */
    method CollectGarbages(m: Memory)
      requires Owns(m)
      modifies this`values
      ensures Owns(m) && |values| == |old(values)|
      ensures forall n :: 0 <= n < |values| ==> values[n] == if IsNamed(m.Cells(), n) then old(values[n]) else None
    {
      hide Owned, IsHandle, IsNamed, IsNamedBelow, Names;
      ghost var a := m.Cells();
      var marks := new bool[|values|](_ => false);
      var index := 0;
      NothingBelowStart(a, |values|);
      while index < m.allocationIndex / 2
        invariant 0 <= index <= m.allocationIndex / 2 && fresh(marks) && marks.Length == |values|
        invariant a == m.Cells() && values == old(values)
        invariant forall n :: 0 <= n < |values| ==> (marks[n] <==> IsNamedBelow(a, a.start + 2 * index, n))
      {
        var i := m.AllocationStart() + 2 * index;
        CellNames(a, values, owner, i);
        if m.heap[i + 1].Tag() == FOREIGN {
          marks[m.heap[i].n] := true;
        }
        forall n | 0 <= n < |values| ensures marks[n] <==> IsNamedBelow(a, i + 2, n) {
          NamedAtNext(a, i, n);
        }
        index := index + 1;
        assert a.start + 2 * index == i + 2;
      }
      forall n | 0 <= n < |values| ensures marks[n] <==> IsNamed(a, n) {
        NamedBelowEnd(a, n);
      }
      index := 0;
      while index < |values|
        invariant 0 <= index <= |values| == |old(values)| && marks.Length == |values|
        invariant forall n :: 0 <= n < |values| ==> (marks[n] <==> IsNamed(a, n))
        invariant forall n :: 0 <= n < |values| ==>
          values[n] == if n < index && !IsNamed(a, n) then None else old(values[n])
      {
        if !marks[index] {
          values := values[index := None];
        }
        index := index + 1;
      }
      OwnedKept(a, old(values), values, owner);
    }

    method FindFree() returns (r: Option<nat>)
      ensures r.None? ==> forall n :: 0 <= n < |values| ==> values[n].Some?
      ensures r.Some? ==>
        && r.value < |values| && values[r.value].None?
        && forall n :: 0 <= n < r.value ==> values[n].Some?
    {
      for n := 0 to |values|
        invariant forall k :: 0 <= k < n ==> values[k].Some?
      {
        if values[n].None? {
          return Some(n);
        }
      }
      r := None;
    }

    /** Finds a slot that no handle names. Garbage is collected only when no slot is free, and the table grows only
        when every slot is named. */
    method Allocate(m: Memory) returns (n: nat)
      requires Owns(m)
      modifies this`values
      ensures Owns(m) && FindsSlot(m.Cells(), old(values), values, n)
    {
      hide Owned, IsNamed;
      var free := FindFree();
      if free.None? {
        CollectGarbages(m);
        assert values == Swept(m.Cells(), old(values));
        free := FindFree();
      }
      if free.Some? {
        n := free.value;
      } else {
        OwnedKept(m.Cells(), values, values + [None], owner);
        assert values == old(values);
        values := values + [None];
        n := |values| - 1;
      }
      if IsNamed(m.Cells(), n) {
        NamedIsFilled(m.Cells(), values, owner, n);
      }
    }

    /** The object of a handle; the program never sees the errors for an empty or a missing slot. */
    method Find(m: Memory, c: Cons) returns (r: Option<T>)
      requires Owns(m) && IsHandle(m.Cells(), c.index)
      ensures c.index in owner && r == Some(owner[c.index])
    {
      assert IsFilled(m.Cells(), values, owner, c.index);
      var v := m.heap[c.index];
      r := if v.Number? && 0 <= v.n < |values| then values[v.n] else None;
    }

    /** Hands an object to the program: its handle is the one new cell of the heap, for a slot that none named, and all
        others stay what they were, wherever the collector moves them. */
    method ConvertIntoScheme(m: Memory, item: T)
      returns (r: Result<Cons>, ghost f: map<nat, nat>, ghost n: nat, ghost found: seq<Option<T>>)
      requires m.Valid() && Owns(m) && Machine.NullOf(m.model).Ok?
      modifies this, m, m.heap
      ensures FindsSlot(old(m.Cells()), old(values), found, n) && values == found[n := Some(item)]
      ensures r.OutOfMemory? ==> 2 * m.live == m.SpaceSize() && Owns(m) && m.model == old(m.model)
      ensures r.Ok? ==>
        && m.Valid() && Owns(m) && IsHandle(m.Cells(), r.value.index)
        && owner[r.value.index] == item
        && OthersKept(old(m.Cells()), old(owner), m.Cells(), owner, f, r.value.index)
        && m.model == Stores.Allocate(old(m.model), Number(n), NullHandle(old(m.model)))
        && ConsMoves(m.loc, Fresh(old(m.model)), r.value)
    {
      hide Memory.Valid, Owned, IsHandle, IsNamed, OthersKept, FindsSlot, ConsMoves, NullHandle;
      var slot := Allocate(m);
      n := slot;
      found := values;
      SlotFilled(m.Cells(), old(values), found, owner, slot, item);
      values := values[slot := Some(item)];
      r, f := MakeHandle(m, slot, item);
    }

    /** Makes the handle of a slot that has been filled. */
    method MakeHandle(m: Memory, n: nat, item: T) returns (r: Result<Cons>, ghost f: map<nat, nat>)
      requires m.Valid() && Owns(m) && Machine.NullOf(m.model).Ok?
      requires n < |values| && values[n] == Some(item) && !IsNamed(m.Cells(), n)
      modifies this`owner, m, m.heap
      ensures r.OutOfMemory? ==> 2 * m.live == m.SpaceSize() && Owns(m) && m.model == old(m.model)
      ensures r.Ok? ==>
        && m.Valid() && Owns(m) && IsHandle(m.Cells(), r.value.index)
        && owner[r.value.index] == item
        && OthersKept(old(m.Cells()), old(owner), m.Cells(), owner, f, r.value.index)
        && m.model == Stores.Allocate(old(m.model), Number(n), NullHandle(old(m.model)))
        && ConsMoves(m.loc, Fresh(old(m.model)), r.value)
    {
      hide Memory.Valid, Descends, Owned, IsHandle, IsNamed, OthersKept, ConsMoves, ValueMoves, NullHandle, WithCell,
           Machine.NullOf;
      var nil := m.Null();
      ghost var a := m.Cells();
      f := map[];
      NullHandleMoves(m.model, m.loc, nil);
      NumberMoves(m.loc, n);
      r := m.Allocate(Number(n), Pointer(nil.SetTag(FOREIGN)), Number(n), NullHandle(m.model));
      m.ValidIsAligned();
      if r.Ok? {
        owner, f := HandleMade(a, values, owner, n, item, Pointer(nil.SetTag(FOREIGN)), m.Cells(), r.value.index);
      }
    }
  }

  lemma {:induction false} NullHandleMoves(s: Store, f: map<nat, nat>, nil: Cons)
    requires Machine.NullOf(s).Ok? && ConsMoves(f, Machine.NullOf(s).value, nil)
    ensures ValueMoves(f, NullHandle(s), Pointer(nil.SetTag(FOREIGN)))
  {
  }

  lemma {:induction false} NumberMoves(f: map<nat, nat>, n: int)
    ensures ValueMoves(f, Number(n), Number(n))
  {
  }

  lemma {:induction false} SlotFilled<T>(a: Space, values: seq<Option<T>>, found: seq<Option<T>>, owner: map<nat, T>,
                                         n: nat, item: T)
    requires FindsSlot(a, values, found, n) && Owned(a, found, owner)
    ensures n < |found| && !IsNamed(a, n) && Owned(a, found[n := Some(item)], owner)
  {
    OwnedKept(a, found, found[n := Some(item)], owner);
  }

  // The second field of a handle: null with the greatest tag of sixteen bits.
  ghost function NullHandle(s: Store): Value
    requires Machine.NullOf(s).Ok?
  {
    Pointer(Machine.NullOf(s).value.SetTag(0xFFFF))
  }

  /** Every handle but the new one at `k` was the handle that `f` gives, of the same object. */
  ghost predicate OthersKept<T>(a: Space, owner: map<nat, T>, b: Space, owner': map<nat, T>, f: map<nat, nat>, k: nat) {
    forall j: nat :: IsHandle(b, j) && j != k ==>
      j in f && IsHandle(a, f[j]) && f[j] in owner && j in owner' && owner'[j] == owner[f[j]]
  }

  /** The handles after the cell of a new one has been allocated, and maybe garbage been collected. */
  lemma {:induction false} HandleMade<T(!new)>(a: Space, values: seq<Option<T>>, owner: map<nat, T>, n: nat, item: T,
                                               cdr: Value, b: Space, j: nat)
    returns (owner': map<nat, T>, f: map<nat, nat>)
    requires Owned(a, values, owner) && !IsNamed(a, n) && n < |values| && values[n] == Some(item)
    requires End(a) + 1 < |a.words| && End(a) % 2 == 0 && cdr.Tag() == FOREIGN
    requires Descends(WithCell(a, Number(n), cdr), b, End(a), j)
    ensures Owned(b, values, owner') && IsHandle(b, j) && j in owner' && owner'[j] == item
    ensures OthersKept(a, owner, b, owner', f, j)
  {
    HandleAdded(a, values, owner, n, item, cdr);
    var c, owner1 := WithCell(a, Number(n), cdr), owner[End(a) := item];
    f :| Survives(c, b, f) && j in f && f[j] == End(a);
    assert IsHandle(c, End(a));
    NewHandle(c, b, f, End(a), j);
    SurvivalIsHonest(c, owner1, values, b, f);
    owner' := Traced(owner1, f);
    HonestKeepsOwned(c, owner1, b, owner', f, values);
    forall i: nat | IsHandle(b, i) && i != j
      ensures i in f && IsHandle(a, f[i]) && f[i] in owner && i in owner' && owner'[i] == owner[f[i]]
    {
      assert IsKept(c, owner1, b, owner', f, i);
      assert IsFilled(a, values, owner, f[i]);
    }
  }

  lemma {:induction false} NewHandle(a: Space, b: Space, f: map<nat, nat>, i: nat, j: nat)
    requires Survives(a, b, f) && Allocated(b, j) && j in f && f[j] == i && IsHandle(a, i)
    ensures IsHandle(b, j)
  {
  }

  ghost predicate IsNamedBelow(a: Space, end: nat, n: nat) {
    exists i: nat :: i < end && Names(a, i, n)
  }

  // Slots that no handle names are empty.
  ghost function Swept<T>(a: Space, values: seq<Option<T>>): (r: seq<Option<T>>)
    ensures |r| == |values|
    ensures forall k :: 0 <= k < |r| ==> r[k] == if IsNamed(a, k) then values[k] else None
  {
    seq(|values|, k requires 0 <= k < |values| => if IsNamed(a, k) then values[k] else None)
  }

  ghost predicate HasFree<T>(values: seq<Option<T>>) {
    exists k :: 0 <= k < |values| && values[k].None?
  }

  ghost predicate IsFirstFree<T>(values: seq<Option<T>>, n: nat) {
    n < |values| && values[n].None? && forall k :: 0 <= k < n ==> values[k].Some?
  }

  /** The slot `n` is named by no handle. It is the first free one, or the first that is free when those that no handle
      names have been emptied, or else a new one. */
  ghost predicate FindsSlot<T>(a: Space, values: seq<Option<T>>, values': seq<Option<T>>, n: nat) {
    !IsNamed(a, n) &&
    if HasFree(values) then values' == values && IsFirstFree(values, n)
    else if HasFree(Swept(a, values)) then values' == Swept(a, values) && IsFirstFree(values', n)
    else values' == values + [None] && n == |values|
  }

  lemma {:induction false} NothingBelowStart(a: Space, size: nat)
    ensures forall n: nat :: n < size ==> !IsNamedBelow(a, a.start, n)
  {
  }

  /** What the cell at `i` names. */
  lemma {:induction false} CellNames<T>(a: Space, values: seq<Option<T>>, owner: map<nat, T>, i: nat)
    requires Owned(a, values, owner) && Allocated(a, i)
    ensures a.words[i + 1].Tag() == FOREIGN ==> a.words[i].Number? && 0 <= a.words[i].n < |values|
    ensures forall n: nat :: Names(a, i, n) <==> a.words[i + 1].Tag() == FOREIGN && a.words[i] == Number(n)
  {
    if a.words[i + 1].Tag() == FOREIGN {
      assert IsHandle(a, i) && IsFilled(a, values, owner, i);
    }
  }

  lemma {:induction false} NamedBelowEnd(a: Space, n: nat)
    ensures IsNamedBelow(a, End(a), n) <==> IsNamed(a, n)
  {
    if IsNamed(a, n) {
      var i: nat :| Names(a, i, n);
      assert i < End(a);
    }
  }

  lemma {:induction false} NamedAtNext(a: Space, i: nat, n: nat)
    requires i % 2 == 0
    ensures IsNamedBelow(a, i + 2, n) <==> IsNamedBelow(a, i, n) || Names(a, i, n)
  {
    if IsNamedBelow(a, i + 2, n) {
      var k: nat :| k < i + 2 && Names(a, k, n);
      assert k < i || k == i;
    }
  }

  // ----- runs -----

  /** The allocated cells, the table, and the objects that handles were made for. */
  datatype System<T> = System(cells: Space, values: seq<Option<T>>, owner: map<nat, T>)

  /** A word of the heap is overwritten. */
  ghost predicate Writes<T(!new)>(s: System<T>, s': System<T>, i: nat, v: Value) {
    SparesHandles(s.cells, i, v) && s' == s.(cells := s.cells.(words := s.cells.words[i := v]))
  }

  /** A cell is allocated. */
  ghost predicate Allocates<T(!new)>(s: System<T>, s': System<T>, car: Value, cdr: Value) {
    && End(s.cells) + 1 < |s.cells.words| && End(s.cells) % 2 == 0 && cdr.Tag() != FOREIGN
    && s' == s.(cells := WithCell(s.cells, car, cdr))
  }

  /** Garbage is collected on the heap. */
  ghost predicate Collects<T(!new)>(s: System<T>, s': System<T>, f: map<nat, nat>) {
    Survives(s.cells, s'.cells, f) && s' == s.(cells := s'.cells, owner := Traced(s.owner, f))
  }

  /** Slots that no handle names are emptied. */
  ghost predicate Sweeps<T(!new)>(s: System<T>, s': System<T>) {
    && |s'.values| == |s.values| && s' == s.(values := s'.values)
    && forall n :: 0 <= n < |s.values| ==> s'.values[n] == if IsNamed(s.cells, n) then s.values[n] else None
  }

  /** An object gets a handle. */
  ghost predicate Converts<T(!new)>(s: System<T>, s': System<T>, n: nat, item: T, cdr: Value, values: seq<Option<T>>,
                                    f: map<nat, nat>) {
    var a, i := s.cells, End(s.cells);
    && FindsSlot(a, s.values, values, n) && s'.values == values[n := Some(item)]
    && i + 1 < |a.words| && i % 2 == 0 && cdr.Tag() == FOREIGN
    && Survives(WithCell(a, Number(n), cdr), s'.cells, f) && s'.owner == Traced(s.owner[i := item], f)
  }

  ghost predicate Steps<T(!new)>(s: System<T>, s': System<T>) {
    || (exists i: nat, v :: Writes(s, s', i, v))
    || (exists car, cdr :: Allocates(s, s', car, cdr))
    || (exists f :: Collects(s, s', f))
    || Sweeps(s, s')
    || (exists n: nat, item, cdr, values, f :: Converts(s, s', n, item, cdr, values, f))
  }

  ghost predicate IsRun<T(!new)>(run: seq<System<T>>) {
    && run != [] && (forall i :: !IsHandle(run[0].cells, i))
    && forall k :: 0 < k < |run| ==> Steps(run[k - 1], run[k])
  }

  lemma {:induction false} StepKeepsOwned<T(!new)>(s: System<T>, s': System<T>)
    requires Steps(s, s') && Owned(s.cells, s.values, s.owner)
    ensures Owned(s'.cells, s'.values, s'.owner)
  {
    if i: nat, v :| Writes(s, s', i, v) {
      var f := WriteIsHonest(s.cells, s.owner, s.values, i, v);
      HonestKeepsOwned(s.cells, s.owner, s'.cells, s.owner, f, s.values);
    } else if car, cdr :| Allocates(s, s', car, cdr) {
      var f := AllocationIsHonest(s.cells, s.owner, s.values, car, cdr);
      HonestKeepsOwned(s.cells, s.owner, s'.cells, s.owner, f, s.values);
    } else if f :| Collects(s, s', f) {
      SurvivalIsHonest(s.cells, s.owner, s.values, s'.cells, f);
      HonestKeepsOwned(s.cells, s.owner, s'.cells, s'.owner, f, s.values);
    } else if Sweeps(s, s') {
      OwnedKept(s.cells, s.values, s'.values, s.owner);
    } else {
      ConversionKeepsOwned(s, s');
    }
  }

  lemma {:induction false} ConversionKeepsOwned<T(!new)>(s: System<T>, s': System<T>)
    requires Owned(s.cells, s.values, s.owner)
    requires exists n: nat, item, cdr, values, f :: Converts(s, s', n, item, cdr, values, f)
    ensures Owned(s'.cells, s'.values, s'.owner)
  {
    var n: nat, item, cdr, values, f :| Converts(s, s', n, item, cdr, values, f);
    OwnedKept(s.cells, s.values, s'.values, s.owner);
    HandleAdded(s.cells, s'.values, s.owner, n, item, cdr);
    var c, owner := WithCell(s.cells, Number(n), cdr), s.owner[End(s.cells) := item];
    SurvivalIsHonest(c, owner, s'.values, s'.cells, f);
    HonestKeepsOwned(c, owner, s'.cells, s'.owner, f, s'.values);
  }

  /** In every run of writes that spare the handles, allocations, collections and conversions, no handle dangles
      and no two handles name one slot. */
  lemma {:induction false} RunKeepsOwned<T(!new)>(run: seq<System<T>>, k: nat)
    requires IsRun(run) && k < |run|
    ensures Owned(run[k].cells, run[k].values, run[k].owner)
    decreases k
  {
    if k > 0 {
      RunKeepsOwned(run, k - 1);
      StepKeepsOwned(run[k - 1], run[k]);
    }
  }
}
