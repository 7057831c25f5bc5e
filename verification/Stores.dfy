/** Values, tagged pointers and heaps of `vm/src/value.rs`, `vm/src/cons.rs` and `vm/src/memory.rs`,
    and what it means for two heaps to hold the same graph. */
module Stores {

  /** A pointer to a cell: the index of its first word, and a tag that equality ignores. */
  datatype Cons = Cons(index: nat, tag: nat) {
    function SetTag(tag: nat): Cons {
      Cons(index, tag)
    }

    predicate IsNever() {
      index == 1
    }

    predicate Same(other: Cons) {
      index == other.index
    }
  }

  // No cell has an odd index, so this pointer never points.
  const NEVER := Cons(1, 0)

  datatype Value = Number(n: int) | Pointer(cons: Cons) {
    function Tag(): nat {
      if Pointer? then cons.tag else 0
    }

    // Setting the tag of a number does nothing.
    function SetTag(tag: nat): Value {
      if Pointer? then Pointer(cons.SetTag(tag)) else this
    }

    predicate IsNever() {
      Pointer? && cons.IsNever()
    }

    predicate Same(other: Value) {
      if Pointer? then other.Pointer? && cons.Same(other.cons) else this == other
    }
  }

  /** The words of a heap and its roots. */
  datatype Store = Store(words: seq<Value>, code: Cons, stack: Cons, no: Cons, register: Cons)

  function Roots(s: Store): seq<Cons> {
    [s.code, s.stack, s.no, s.register]
  }

  predicate IsCell(s: Store, c: Cons) {
    c.index % 2 == 0 && c.index + 1 < |s.words|
  }

  // ----- operations without a collector -----

  function Car(s: Store, c: Cons): Value
    requires IsCell(s, c)
  {
    s.words[c.index]
  }

  function Cdr(s: Store, c: Cons): Value
    requires IsCell(s, c)
  {
    s.words[c.index + 1]
  }

  function SetCar(s: Store, c: Cons, v: Value): Store
    requires IsCell(s, c)
  {
    s.(words := s.words[c.index := v])
  }

  function SetRawCdr(s: Store, c: Cons, v: Value): Store
    requires IsCell(s, c)
  {
    s.(words := s.words[c.index + 1 := v])
  }

  // The tag in the `cdr` field belongs to the cell and stays.
  function SetCdr(s: Store, c: Cons, v: Value): Store
    requires IsCell(s, c)
  {
    SetRawCdr(s, c, v.SetTag(Cdr(s, c).Tag()))
  }

  /** The pointer to the cell that `Allocate` makes. */
  function Fresh(s: Store): Cons {
    Cons(|s.words|, 0)
  }

  function Allocate(s: Store, car: Value, cdr: Value): Store {
    s.(words := s.words + [car, cdr])
  }

  // ----- the same graph -----

  predicate ConsMoves(f: map<nat, nat>, c: Cons, d: Cons) {
    if c.IsNever() then d == c else c.index in f && d == Cons(f[c.index], c.tag)
  }

  predicate ValueMoves(f: map<nat, nat>, v: Value, w: Value) {
    match v
    case Number(_) => w == v
    case Pointer(c) => w.Pointer? && ConsMoves(f, c, w.cons)
  }

  predicate CellMoves(f: map<nat, nat>, a: seq<Value>, b: seq<Value>, i: nat)
    requires i in f
  {
    && i % 2 == 0 && i + 1 < |a| && f[i] % 2 == 0 && f[i] + 1 < |b|
    && ValueMoves(f, a[i], b[f[i]])
    && ValueMoves(f, a[i + 1], b[f[i] + 1])
  }

  ghost predicate Injective(f: map<nat, nat>) {
    forall i, j :: i in f && j in f && f[i] == f[j] ==> i == j
  }

  /** `f` is an isomorphism between the parts of two heaps that hold their live cells: it carries every
      root, number, pointer and tag across and tells different cells apart. */
  ghost predicate Iso(f: map<nat, nat>, a: Store, b: Store) {
    && Injective(f)
    && ConsMoves(f, a.code, b.code)
    && ConsMoves(f, a.stack, b.stack)
    && ConsMoves(f, a.no, b.no)
    && ConsMoves(f, a.register, b.register)
    && forall i :: i in f ==> CellMoves(f, a.words, b.words, i)
  }

  /** Pointer equality is the same on both sides. */
  lemma {:induction false} SameMoves(f: map<nat, nat>, v: Value, w: Value, v': Value, w': Value)
    requires Injective(f) && ValueMoves(f, v, v') && ValueMoves(f, w, w')
    requires forall i :: i in f ==> f[i] != 1
    ensures v.Same(w) <==> v'.Same(w')
  {
  }

  function Compose(f: map<nat, nat>, g: map<nat, nat>): map<nat, nat> {
    map i | i in f && f[i] in g :: g[f[i]]
  }

  lemma {:induction false} ValueComposes(f: map<nat, nat>, g: map<nat, nat>, u: Value, v: Value, w: Value)
    requires ValueMoves(f, u, v) && ValueMoves(g, v, w)
    requires forall i :: i in f ==> f[i] != 1
    ensures ValueMoves(Compose(f, g), u, w)
  {
  }

  lemma {:induction false} IsoComposes(f: map<nat, nat>, g: map<nat, nat>, a: Store, b: Store, c: Store)
    requires Iso(f, a, b) && Iso(g, b, c)
    ensures Iso(Compose(f, g), a, c)
  {
    var h := Compose(f, g);
    NotNever(f, a, b);
    forall i | i in h ensures CellMoves(h, a.words, c.words, i) {
      CellComposes(f, g, a.words, b.words, c.words, i);
    }
    hide CellMoves;
    ValueComposes(f, g, Pointer(a.code), Pointer(b.code), Pointer(c.code));
    ValueComposes(f, g, Pointer(a.stack), Pointer(b.stack), Pointer(c.stack));
    ValueComposes(f, g, Pointer(a.no), Pointer(b.no), Pointer(c.no));
    ValueComposes(f, g, Pointer(a.register), Pointer(b.register), Pointer(c.register));
  }

  lemma {:induction false} CellComposes(f: map<nat, nat>, g: map<nat, nat>, a: seq<Value>, b: seq<Value>,
                                        c: seq<Value>, i: nat)
    requires i in f && f[i] in g && CellMoves(f, a, b, i) && CellMoves(g, b, c, f[i])
    requires forall j :: j in f ==> f[j] != 1
    ensures i in Compose(f, g) && CellMoves(Compose(f, g), a, c, i)
  {
    ValueComposes(f, g, a[i], b[f[i]], c[g[f[i]]]);
    ValueComposes(f, g, a[i + 1], b[f[i] + 1], c[g[f[i]] + 1]);
    hide ValueMoves;
  }

  lemma {:induction false} NotNever(f: map<nat, nat>, a: Store, b: Store)
    requires Iso(f, a, b)
    ensures forall i :: i in f ==> f[i] != 1
  {
    forall i | i in f ensures f[i] != 1 {
      assert CellMoves(f, a.words, b.words, i);
    }
  }

  // ----- each operation keeps the heaps isomorphic -----

  lemma {:induction false} IsoReads(f: map<nat, nat>, a: Store, b: Store, c: Cons, d: Cons)
    requires Iso(f, a, b) && ConsMoves(f, c, d) && !c.IsNever()
    ensures IsCell(a, c) && IsCell(b, d)
    ensures ValueMoves(f, Car(a, c), Car(b, d)) && ValueMoves(f, Cdr(a, c), Cdr(b, d))
  {
    assert CellMoves(f, a.words, b.words, c.index);
  }

  lemma {:induction false} CellWritten(f: map<nat, nat>, a: seq<Value>, b: seq<Value>, i: nat, j: nat, k: nat,
                                       v: Value, w: Value)
    requires i in f && j in f && CellMoves(f, a, b, i) && CellMoves(f, a, b, j) && (f[i] == f[j] ==> i == j)
    requires k < 2 && ValueMoves(f, v, w)
    ensures CellMoves(f, a[j + k := v], b[f[j] + k := w], i)
  {
    hide ValueMoves;
    if i == j {
      assert f[i] == f[j];
    }
  }

  lemma {:induction false} IsoWrites(f: map<nat, nat>, a: Store, b: Store, j: nat, k: nat, v: Value, w: Value)
    requires Iso(f, a, b) && j in f && k < 2 && ValueMoves(f, v, w)
    requires j + 1 < |a.words| && f[j] + 1 < |b.words|
    ensures Iso(f, a.(words := a.words[j + k := v]), b.(words := b.words[f[j] + k := w]))
  {
    hide CellMoves, ValueMoves;
    forall i | i in f ensures CellMoves(f, a.words[j + k := v], b.words[f[j] + k := w], i) {
      CellWritten(f, a.words, b.words, i, j, k, v, w);
    }
  }

  lemma {:induction false} IsoSetCar(f: map<nat, nat>, a: Store, b: Store, c: Cons, d: Cons, v: Value, w: Value)
    requires Iso(f, a, b) && ConsMoves(f, c, d) && !c.IsNever() && ValueMoves(f, v, w)
    requires IsCell(a, c) && IsCell(b, d)
    ensures Iso(f, SetCar(a, c, v), SetCar(b, d, w))
  {
    hide Iso;
    IsoWrites(f, a, b, c.index, 0, v, w);
  }

  lemma {:induction false} IsoSetRawCdr(f: map<nat, nat>, a: Store, b: Store, c: Cons, d: Cons, v: Value, w: Value)
    requires Iso(f, a, b) && ConsMoves(f, c, d) && !c.IsNever() && ValueMoves(f, v, w)
    requires IsCell(a, c) && IsCell(b, d)
    ensures Iso(f, SetRawCdr(a, c, v), SetRawCdr(b, d, w))
  {
    hide Iso;
    IsoWrites(f, a, b, c.index, 1, v, w);
  }

  lemma {:induction false} ValueStaysMoved(f: map<nat, nat>, n: nat, k: nat, v: Value, w: Value)
    requires ValueMoves(f, v, w) && n !in f
    ensures ValueMoves(f[n := k], v, w)
  {
  }

  lemma {:induction false} CellStaysMoved(f: map<nat, nat>, a: seq<Value>, b: seq<Value>, a': seq<Value>,
                                          b': seq<Value>, n: nat, k: nat, i: nat)
    requires i in f && CellMoves(f, a, b, i) && n !in f && a <= a' && |b'| == |b| && k % 2 == 0 && f[i] != k
    requires forall j :: 0 <= j < |b| && j != k && j != k + 1 ==> b'[j] == b[j]
    ensures CellMoves(f[n := k], a', b', i)
  {
    hide ValueMoves;
    ValueStaysMoved(f, n, k, a[i], b[f[i]]);
    ValueStaysMoved(f, n, k, a[i + 1], b[f[i] + 1]);
  }

  lemma {:induction false} CellsAreOld(f: map<nat, nat>, a: Store, b: Store)
    requires Iso(f, a, b)
    ensures forall i :: i in f ==> i < |a.words|
  {
    forall i | i in f ensures i < |a.words| {
      assert CellMoves(f, a.words, b.words, i);
    }
  }

  lemma {:induction false} IsoAllocate(f: map<nat, nat>, a: Store, b: Store, b': Store, k: nat, v: Value, v': Value,
                                       w: Value, w': Value)
    requires Iso(f, a, b) && ValueMoves(f, v, v') && ValueMoves(f, w, w')
    requires |a.words| % 2 == 0 && k % 2 == 0 && k + 1 < |b.words|
    requires forall i :: i in f ==> f[i] != k
    requires b' == b.(words := b.words[k := v'][k + 1 := w'])
    ensures Iso(f[|a.words| := k], Allocate(a, v, w), b')
  {
    var n, g, a' := |a.words|, f[|a.words| := k], Allocate(a, v, w);
    CellsAreOld(f, a, b);
    ValueStaysMoved(f, n, k, v, v');
    ValueStaysMoved(f, n, k, w, w');
    assert CellMoves(g, a'.words, b'.words, n);
    hide CellMoves, ValueMoves;
    forall i | i in g ensures CellMoves(g, a'.words, b'.words, i) {
      if i != n {
        CellStaysMoved(f, a.words, b.words, a'.words, b'.words, n, k, i);
      }
    }
  }
}
