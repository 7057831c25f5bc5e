/** The copying collection of `vm/src/memory.rs` on plain sequences: reachability, the state of a
    half-done collection, and the two steps it consists of. */
module Collection {
  import opened Stores
  import opened Distinctness

  // ----- reachability -----

  predicate Points(v: Value, i: nat) {
    v.Pointer? && !v.cons.IsNever() && v.cons.index == i
  }

  ghost predicate IsRoot(roots: seq<Cons>, i: nat) {
    exists c <- roots :: Points(Pointer(c), i)
  }

  predicate Links(words: seq<Value>, i: nat, j: nat) {
    i + 1 < |words| && (Points(words[i], j) || Points(words[i + 1], j))
  }

  /** A way from a root to the last cell of the path. */
  ghost predicate IsPath(words: seq<Value>, roots: seq<Cons>, path: seq<nat>) {
    && path != []
    && IsRoot(roots, path[0])
    && forall k :: 0 < k < |path| ==> Links(words, path[k - 1], path[k])
  }

  ghost predicate Reachable(words: seq<Value>, roots: seq<Cons>, i: nat) {
    exists path :: IsPath(words, roots, path) && path[|path| - 1] == i
  }

  lemma {:induction false} RootIsReachable(words: seq<Value>, roots: seq<Cons>, i: nat)
    requires IsRoot(roots, i)
    ensures Reachable(words, roots, i)
  {
    assert IsPath(words, roots, [i]);
  }

  lemma {:induction false} LinkIsReachable(words: seq<Value>, roots: seq<Cons>, i: nat, j: nat)
    requires Reachable(words, roots, i) && Links(words, i, j)
    ensures Reachable(words, roots, j)
  {
    var path :| IsPath(words, roots, path) && path[|path| - 1] == i;
    var longer := path + [j];
    forall k | 0 < k < |longer| ensures Links(words, longer[k - 1], longer[k]) {
      if k < |path| {
        assert Links(words, path[k - 1], path[k]);
      }
    }
    assert IsPath(words, roots, longer) && longer[|longer| - 1] == j;
  }

  /** A set that holds the roots and everything its members link to holds everything reachable. */
  lemma {:induction false} ClosedHoldsReachable(words: seq<Value>, roots: seq<Cons>, live: set<nat>, i: nat)
    requires forall r :: IsRoot(roots, r) ==> r in live
    requires forall j, k :: j in live && Links(words, j, k) ==> k in live
    requires Reachable(words, roots, i)
    ensures i in live
  {
    var path :| IsPath(words, roots, path) && path[|path| - 1] == i;
    PathStaysIn(words, roots, live, path, |path| - 1);
  }

  lemma {:induction false} PathStaysIn(words: seq<Value>, roots: seq<Cons>, live: set<nat>, path: seq<nat>, k: nat)
    requires forall r :: IsRoot(roots, r) ==> r in live
    requires forall i, j :: i in live && Links(words, i, j) ==> j in live
    requires IsPath(words, roots, path) && k < |path|
    ensures path[k] in live
  {
    if k > 0 {
      PathStaysIn(words, roots, live, path, k - 1);
      assert Links(words, path[k - 1], path[k]);
    }
  }

  // ----- sound heaps -----

  /** The cells of a space of which `used` words are allocated. */
  predicate InSpace(start: nat, used: nat, i: nat) {
    start <= i < start + used && i % 2 == 0
  }

  predicate SoundCons(start: nat, used: nat, c: Cons) {
    c.IsNever() || InSpace(start, used, c.index)
  }

  predicate SoundValue(start: nat, used: nat, v: Value) {
    v.Pointer? ==> SoundCons(start, used, v.cons)
  }

  predicate SoundCell(words: seq<Value>, start: nat, used: nat, i: nat)
    requires i + 1 < |words|
  {
    && SoundValue(start, used, words[i]) && !words[i].IsNever()
    && SoundValue(start, used, words[i + 1])
  }

  /** No pointer leaves the allocated cells, and no `car` field holds the mark of a moved cell. */
  ghost predicate Sound(words: seq<Value>, start: nat, used: nat) {
    && start % 2 == 0 && used % 2 == 0 && start + used <= |words|
    && forall i :: InSpace(start, used, i) ==> SoundCell(words, start, used, i)
  }

  // ----- a collection in progress -----

  /** The moved cells in the order they moved, and where they are now. */
  datatype Moves = Moves(order: seq<nat>, to: map<nat, nat>)

  /** The old heap, where its cells are, and where the new cells go. */
  datatype Plan = Plan(old_: seq<Value>, from: nat, used: nat, start: nat, size: nat)

  ghost predicate IsPlan(q: Plan) {
    && Sound(q.old_, q.from, q.used)
    && q.used <= q.size && q.size % 2 == 0 && |q.old_| == 2 * q.size
    && ((q.from == 0 && q.start == q.size) || (q.from == q.size && q.start == 0))
  }

  ghost predicate Ordered(q: Plan, m: Moves) {
    && (forall k :: 0 <= k < |m.order| ==>
          InSpace(q.from, q.used, m.order[k]) && m.order[k] in m.to && m.to[m.order[k]] == q.start + 2 * k)
    && forall i :: i in m.to ==> i in m.order
  }

  // A moved cell says where it went; the others are as they were.
  predicate OldCell(q: Plan, m: Moves, w: seq<Value>, i: nat)
    requires i + 1 < |w| == |q.old_|
  {
    if i in m.to then w[i] == Pointer(NEVER) && w[i + 1] == Pointer(Cons(m.to[i], 0))
    else w[i] == q.old_[i] && w[i + 1] == q.old_[i + 1]
  }

  // A word before the scan index points to new cells, a word after it still to old ones.
  predicate NewWord(m: Moves, scanned: bool, before: Value, now: Value) {
    if scanned then ValueMoves(m.to, before, now) else now == before
  }

  predicate NewCell(q: Plan, m: Moves, w: seq<Value>, scan: nat, k: nat)
    requires k < |m.order| && m.order[k] + 1 < |q.old_| && q.start + 2 * k + 1 < |w|
  {
    && NewWord(m, 2 * k < scan, q.old_[m.order[k]], w[q.start + 2 * k])
    && NewWord(m, 2 * k + 1 < scan, q.old_[m.order[k] + 1], w[q.start + 2 * k + 1])
  }

  ghost predicate Copying(q: Plan, m: Moves, w: seq<Value>, scan: nat) {
    && IsPlan(q) && Ordered(q, m)
    && |w| == |q.old_| && scan <= 2 * |m.order| <= q.size
    && (forall i :: InSpace(q.from, q.used, i) ==> OldCell(q, m, w, i))
    && forall k :: 0 <= k < |m.order| ==> NewCell(q, m, w, scan, k)
  }

  ghost predicate AllReachable(q: Plan, m: Moves, roots: seq<Cons>) {
    forall k :: 0 <= k < |m.order| ==> Reachable(q.old_, roots, m.order[k])
  }

  // ----- room for one more -----

  /** Distinct cells of a space are no more than fit in it. */
  lemma {:induction false} DistinctCellsFit(order: seq<nat>, start: nat, used: nat)
    requires used % 2 == 0 && start % 2 == 0
    requires forall k :: 0 <= k < |order| ==> InSpace(start, used, order[k])
    requires Distinct(order)
    ensures 2 * |order| <= used
  {
    var places := seq(|order|, i requires 0 <= i < |order| => (order[i] - start) / 2);
    forall i, j | 0 <= i < j < |order| ensures places[i] != places[j] {
      assert InSpace(start, used, order[i]) && InSpace(start, used, order[j]);
    }
    DistinctBelow(places, used / 2);
  }

  lemma {:induction false} RoomForOneMore(q: Plan, m: Moves, i: nat)
    requires IsPlan(q) && Ordered(q, m) && InSpace(q.from, q.used, i) && i !in m.to
    ensures 2 * |m.order| + 2 <= q.used
  {
    DistinctCellsFit(m.order + [i], q.from, q.used);
  }

  // ----- the two steps -----

  function MoveTo(q: Plan, m: Moves, i: nat): Moves {
    Moves(m.order + [i], m.to[i := q.start + 2 * |m.order|])
  }

  function MoveWords(q: Plan, m: Moves, w: seq<Value>, i: nat): seq<Value>
    requires i + 1 < |w| && q.start + 2 * |m.order| + 1 < |w|
  {
    var k := q.start + 2 * |m.order|;
    w[k := w[i]][k + 1 := w[i + 1]][i := Pointer(NEVER)][i + 1 := Pointer(Cons(k, 0))]
  }

  lemma {:induction false} MoveOldCell(q: Plan, m: Moves, w: seq<Value>, scan: nat, i: nat, j: nat)
    requires Copying(q, m, w, scan) && InSpace(q.from, q.used, i) && i !in m.to && InSpace(q.from, q.used, j)
    requires 2 * |m.order| + 2 <= q.used
    ensures OldCell(q, MoveTo(q, m, i), MoveWords(q, m, w, i), j)
  {
    assert OldCell(q, m, w, i) && OldCell(q, m, w, j);
  }

  lemma {:induction false} SpacesApart(q: Plan, i: nat, k: nat)
    requires IsPlan(q) && InSpace(q.from, q.used, i) && 2 * k + 2 <= q.size
    ensures i + 1 < q.start + 2 * k || q.start + 2 * k + 1 < i
  {
    hide Sound;
  }

  lemma {:induction false} WordStaysNew(m: Moves, i: nat, j: nat, scanned: bool, before: Value, now: Value)
    requires NewWord(m, scanned, before, now) && i !in m.to
    ensures NewWord(Moves(m.order + [i], m.to[i := j]), scanned, before, now)
  {
  }

  lemma {:induction false} CellStaysNew(q: Plan, m: Moves, w: seq<Value>, scan: nat, i: nat, k: nat)
    requires k < |m.order| && m.order[k] + 1 < |q.old_| && q.start + 2 * |m.order| + 1 < |w| && i + 1 < |w|
    requires NewCell(q, m, w, scan, k) && i !in m.to
    requires i + 1 < q.start + 2 * k || q.start + 2 * k + 1 < i
    ensures NewCell(q, MoveTo(q, m, i), MoveWords(q, m, w, i), scan, k)
  {
    hide NewWord;
    var j, old_ := q.start + 2 * |m.order|, q.old_;
    WordStaysNew(m, i, j, 2 * k < scan, old_[m.order[k]], w[q.start + 2 * k]);
    WordStaysNew(m, i, j, 2 * k + 1 < scan, old_[m.order[k] + 1], w[q.start + 2 * k + 1]);
  }

  lemma {:induction false} MovedCellIsNew(q: Plan, m: Moves, w: seq<Value>, scan: nat, i: nat)
    requires |w| == |q.old_| && i + 1 < |w| && q.start + 2 * |m.order| + 1 < |w| && scan <= 2 * |m.order|
    requires OldCell(q, m, w, i) && i !in m.to
    requires i + 1 < q.start + 2 * |m.order| || q.start + 2 * |m.order| + 1 < i
    ensures NewCell(q, MoveTo(q, m, i), MoveWords(q, m, w, i), scan, |m.order|)
  {
  }

  lemma {:induction false} MoveNewCell(q: Plan, m: Moves, w: seq<Value>, scan: nat, i: nat, k: nat)
    requires Copying(q, m, w, scan) && InSpace(q.from, q.used, i) && i !in m.to && k <= |m.order|
    requires 2 * |m.order| + 2 <= q.used
    ensures var m' := MoveTo(q, m, i);
            InSpace(q.from, q.used, m'.order[k]) && NewCell(q, m', MoveWords(q, m, w, i), scan, k)
  {
    hide NewCell, OldCell, Sound, MoveWords;
    SpacesApart(q, i, k);
    if k < |m.order| {
      assert NewCell(q, m, w, scan, k);
      CellStaysNew(q, m, w, scan, i, k);
    } else {
      assert OldCell(q, m, w, i);
      MovedCellIsNew(q, m, w, scan, i);
    }
  }

  lemma {:induction false} MoveKeepsOrdered(q: Plan, m: Moves, i: nat)
    requires Ordered(q, m) && InSpace(q.from, q.used, i) && i !in m.to
    ensures Ordered(q, MoveTo(q, m, i))
  {
    var m' := MoveTo(q, m, i);
    forall j | j in m'.to ensures j in m'.order {
      if j == i {
        assert m'.order[|m.order|] == i;
      } else {
        var k :| 0 <= k < |m.order| && m.order[k] == j;
        assert m'.order[k] == j;
      }
    }
  }

  /** Copying a cell that has not moved yet. */
  lemma {:induction false} MoveKeepsCopying(q: Plan, m: Moves, w: seq<Value>, scan: nat, i: nat)
    requires Copying(q, m, w, scan) && InSpace(q.from, q.used, i) && i !in m.to
    ensures 2 * |m.order| + 2 <= q.used
    ensures Copying(q, MoveTo(q, m, i), MoveWords(q, m, w, i), scan)
  {
    hide OldCell, NewCell, Ordered;
    RoomForOneMore(q, m, i);
    MoveKeepsOrdered(q, m, i);
    var m', w' := MoveTo(q, m, i), MoveWords(q, m, w, i);
    forall j | InSpace(q.from, q.used, j) ensures OldCell(q, m', w', j) {
      MoveOldCell(q, m, w, scan, i, j);
    }
    forall k | 0 <= k < |m'.order| ensures InSpace(q.from, q.used, m'.order[k]) && NewCell(q, m', w', scan, k) {
      MoveNewCell(q, m, w, scan, i, k);
    }
  }

  /** Replacing the scanned word by its moved form. */
  lemma {:induction false} ScanKeepsCopying(q: Plan, m: Moves, w: seq<Value>, scan: nat, v: Value)
    requires Copying(q, m, w, scan) && scan < 2 * |m.order|
    requires ValueMoves(m.to, w[q.start + scan], v)
    ensures Copying(q, m, w[q.start + scan := v], scan + 1)
  {
    var w', next := w[q.start + scan := v], scan + 1;
    forall j | InSpace(q.from, q.used, j) ensures OldCell(q, m, w', j) {
      assert OldCell(q, m, w, j);
    }
    forall k | 0 <= k < |m.order| ensures NewCell(q, m, w', next, k) {
      assert NewCell(q, m, w, scan, k);
    }
  }

  /** The word to scan next, seen in the old heap. */
  lemma {:induction false} NextWord(q: Plan, m: Moves, w: seq<Value>, scan: nat, roots: seq<Cons>)
    requires Copying(q, m, w, scan) && scan < 2 * |m.order| && AllReachable(q, m, roots)
    ensures var v := w[q.start + scan];
            && SoundValue(q.from, q.used, v)
            && forall i :: Points(v, i) ==> Reachable(q.old_, roots, i)
  {
    var k := scan / 2;
    var i := m.order[k];
    assert NewCell(q, m, w, scan, k) && SoundCell(q.old_, q.from, q.used, i);
    forall j | Points(w[q.start + scan], j) ensures Reachable(q.old_, roots, j) {
      assert Links(q.old_, i, j);
      LinkIsReachable(q.old_, roots, i, j);
    }
  }

  /** The mark in an old cell tells whether it has moved. */
  lemma {:induction false} SeeOldCell(q: Plan, m: Moves, w: seq<Value>, scan: nat, i: nat)
    requires Copying(q, m, w, scan) && InSpace(q.from, q.used, i)
    ensures i + 1 < |w|
    ensures w[i].IsNever() <==> i in m.to
    ensures i in m.to ==> w[i + 1] == Pointer(Cons(m.to[i], 0))
  {
    assert OldCell(q, m, w, i) && SoundCell(q.old_, q.from, q.used, i);
  }

  lemma {:induction false} MoveKeepsReachable(q: Plan, m: Moves, roots: seq<Cons>, i: nat)
    requires AllReachable(q, m, roots) && Reachable(q.old_, roots, i)
    ensures AllReachable(q, MoveTo(q, m, i), roots)
  {
  }

  // ----- the result -----

  lemma {:induction false} AllMoved(q: Plan, m: Moves, w: seq<Value>, k: nat)
    requires Copying(q, m, w, 2 * |m.order|) && k < |m.order|
    ensures m.order[k] in m.to && CellMoves(m.to, q.old_, w, m.order[k])
  {
    hide OldCell, Sound;
    assert NewCell(q, m, w, 2 * |m.order|, k);
    assert m.to[m.order[k]] == q.start + 2 * k;
    hide Copying, Ordered, ValueMoves;
  }

  lemma {:induction false} MovedCell(q: Plan, m: Moves, w: seq<Value>, i: nat)
    requires Copying(q, m, w, 2 * |m.order|) && i in m.to
    ensures CellMoves(m.to, q.old_, w, i)
  {
    var k :| 0 <= k < |m.order| && m.order[k] == i;
    AllMoved(q, m, w, k);
  }

  lemma {:induction false} MovesAreInjective(q: Plan, m: Moves)
    requires Ordered(q, m)
    ensures Injective(m.to)
  {
    forall i, j | i in m.to && j in m.to && m.to[i] == m.to[j] ensures i == j {
      var k :| 0 <= k < |m.order| && m.order[k] == i;
      var l :| 0 <= l < |m.order| && m.order[l] == j;
    }
  }

  lemma {:induction false} MovedTargets(q: Plan, m: Moves, i: nat)
    requires Ordered(q, m) && q.start % 2 == 0 && i in m.to
    ensures InSpace(q.start, 2 * |m.order|, m.to[i])
  {
    var k :| 0 <= k < |m.order| && m.order[k] == i;
  }

  lemma {:induction false} MovedValueIsSound(q: Plan, m: Moves, v: Value, v': Value)
    requires Ordered(q, m) && q.start % 2 == 0 && ValueMoves(m.to, v, v')
    ensures SoundValue(q.start, 2 * |m.order|, v')
    ensures v'.IsNever() <==> v.IsNever()
  {
    if v.Pointer? && !v.cons.IsNever() {
      MovedTargets(q, m, v.cons.index);
    }
  }

  lemma {:induction false} NewHeapIsSound(q: Plan, m: Moves, w: seq<Value>)
    requires Copying(q, m, w, 2 * |m.order|)
    ensures Sound(w, q.start, 2 * |m.order|)
  {
    forall i: nat | InSpace(q.start, 2 * |m.order|, i) ensures SoundCell(w, q.start, 2 * |m.order|, i) {
      var k := (i - q.start) / 2;
      var j := m.order[k];
      AllMoved(q, m, w, k);
      assert SoundCell(q.old_, q.from, q.used, j);
      MovedValueIsSound(q, m, q.old_[j], w[i]);
      MovedValueIsSound(q, m, q.old_[j + 1], w[i + 1]);
    }
  }

  lemma {:induction false} LinksMove(q: Plan, m: Moves, w: seq<Value>, i: nat, j: nat)
    requires Copying(q, m, w, 2 * |m.order|) && i in m.to && Links(q.old_, i, j)
    ensures j in m.to
  {
    MovedCell(q, m, w, i);
  }

  /** Exactly the reachable cells have moved. */
  lemma {:induction false} MovedIffReachable(q: Plan, m: Moves, w: seq<Value>, roots: seq<Cons>)
    requires Copying(q, m, w, 2 * |m.order|) && AllReachable(q, m, roots)
    requires forall c <- roots :: !c.IsNever() ==> c.index in m.to
    ensures forall i :: i in m.to <==> Reachable(q.old_, roots, i)
  {
    hide OldCell, NewCell, Reachable;
    forall i | i in m.to ensures Reachable(q.old_, roots, i) {
      var k :| 0 <= k < |m.order| && m.order[k] == i;
    }
    forall j, k | j in m.to.Keys && Links(q.old_, j, k) ensures k in m.to.Keys {
      LinksMove(q, m, w, j, k);
    }
    forall i | Reachable(q.old_, roots, i) ensures i in m.to {
      ClosedHoldsReachable(q.old_, roots, m.to.Keys, i);
    }
  }

  lemma {:induction false} MovedCount(q: Plan, m: Moves)
    requires Ordered(q, m)
    ensures |m.to| == |m.order|
  {
    assert Members(m.order) == m.to.Keys;
    DistinctCount(m.order);
  }

  /** Before anything has moved. */
  lemma {:induction false} StartCopying(q: Plan, roots: seq<Cons>)
    requires IsPlan(q)
    ensures Copying(q, Moves([], map[]), q.old_, 0) && AllReachable(q, Moves([], map[]), roots)
  {
  }

  lemma {:induction false} RootsAreReachable(words: seq<Value>, roots: seq<Cons>)
    ensures forall c <- roots :: !c.IsNever() ==> Reachable(words, roots, c.index)
  {
    forall c | c in roots && !c.IsNever() ensures Reachable(words, roots, c.index) {
      assert Points(Pointer(c), c.index);
      RootIsReachable(words, roots, c.index);
    }
  }

  ghost predicate RootsMove(f: map<nat, nat>, roots: seq<Cons>, roots': seq<Cons>) {
    |roots| == |roots'| && forall k :: 0 <= k < |roots| ==> ConsMoves(f, roots[k], roots'[k])
  }

  /** A later state of a collection: what has moved stays where it is. */
  ghost predicate Extends(m: Moves, m': Moves) {
    && m.order <= m'.order
    && forall i :: i in m.to ==> i in m'.to && m'.to[i] == m.to[i]
  }

  lemma {:induction false} NextWordStays(q: Plan, m: Moves, w: seq<Value>, m': Moves, w': seq<Value>, scan: nat)
    requires Copying(q, m, w, scan) && Copying(q, m', w', scan) && Extends(m, m') && scan < 2 * |m.order|
    ensures w'[q.start + scan] == w[q.start + scan]
  {
    assert NewCell(q, m, w, scan, scan / 2) && NewCell(q, m', w', scan, scan / 2);
  }

  lemma {:induction false} RootsStayMoved(m: Moves, m': Moves, roots: seq<Cons>, roots': seq<Cons>)
    requires Extends(m, m') && RootsMove(m.to, roots, roots')
    ensures RootsMove(m'.to, roots, roots')
  {
  }

  /** A collection that has scanned every new cell is done. */
  lemma {:induction false} DoneCopying(q: Plan, m: Moves, a: Store, b: Store, cons: Cons, cons': Cons)
    requires q.old_ == a.words && Copying(q, m, b.words, 2 * |m.order|)
    requires AllReachable(q, m, Roots(a) + [cons])
    requires RootsMove(m.to, Roots(a) + [cons], Roots(b) + [cons'])
    ensures Iso(m.to, a, b) && ConsMoves(m.to, cons, cons')
    ensures forall i :: i in m.to <==> Reachable(a.words, Roots(a) + [cons], i)
    ensures forall i :: i in m.to ==> InSpace(q.start, 2 * |m.order|, m.to[i])
    ensures Sound(b.words, q.start, 2 * |m.order|)
    ensures |m.to| == |m.order|
  {
    hide OldCell, NewCell, Reachable, CellMoves;
    var roots, roots' := Roots(a) + [cons], Roots(b) + [cons'];
    assert roots[0] == a.code && roots[1] == a.stack && roots[2] == a.no && roots[3] == a.register;
    assert roots'[0] == b.code && roots'[1] == b.stack && roots'[2] == b.no && roots'[3] == b.register;
    assert roots[4] == cons && roots'[4] == cons';
    MovesAreInjective(q, m);
    forall i | i in m.to ensures CellMoves(m.to, q.old_, b.words, i) {
      MovedCell(q, m, b.words, i);
    }
    forall i | i in m.to ensures InSpace(q.start, 2 * |m.order|, m.to[i]) {
      MovedTargets(q, m, i);
    }
    NewHeapIsSound(q, m, b.words);
    MovedIffReachable(q, m, b.words, roots);
    MovedCount(q, m);
  }

  // ----- what becomes of each cell -----

  /** A space of a heap. */
  datatype Space = Space(words: seq<Value>, start: nat, used: nat)

  predicate Allocated(a: Space, i: nat) {
    InSpace(a.start, a.used, i) && i + 1 < |a.words|
  }

  // Numbers and tags stay, and pointers stay pointers.
  predicate CellSurvives(a: seq<Value>, b: seq<Value>, i: nat, j: nat)
    requires i + 1 < |a| && j + 1 < |b|
  {
    && (a[i].Number? || b[j].Number? ==> b[j] == a[i])
    && b[j + 1].Tag() == a[i + 1].Tag()
  }

  /** Every cell of `b` was a cell of `a` of its own, the one that `f` gives. */
  ghost predicate Survives(a: Space, b: Space, f: map<nat, nat>) {
    && (forall j :: Allocated(b, j) ==> j in f && Allocated(a, f[j]) && CellSurvives(a.words, b.words, f[j], j))
    && (forall i, j :: Allocated(b, i) && Allocated(b, j) && i != j && i in f && j in f ==> f[i] != f[j])
  }

  lemma {:induction false} OneSurvives(q: Plan, m: Moves, a: Store, b: Store, i: nat)
    requires Ordered(q, m) && Iso(m.to, a, b) && i in m.to
    ensures Allocated(Space(a.words, q.from, q.used), i) && m.to[i] + 1 < |b.words|
    ensures CellSurvives(a.words, b.words, i, m.to[i])
  {
    assert CellMoves(m.to, a.words, b.words, i);
  }

  lemma {:induction false} InverseSurvives(q: Plan, m: Moves, a: Store, b: Store, d: Space, f: map<nat, nat>)
    requires Ordered(q, m) && Iso(m.to, a, b) && d.words == b.words
    requires forall j: nat :: Allocated(d, j) ==> j in f && f[j] in m.to && m.to[f[j]] == j
    requires forall i :: i in m.to ==> InSpace(d.start, d.used, m.to[i])
    ensures Survives(Space(a.words, q.from, q.used), d, f) && Inverts(m.to, f)
    ensures forall i :: i in m.to ==> Allocated(d, m.to[i])
  {
    hide Ordered, CellSurvives, CellMoves;
    var c := Space(a.words, q.from, q.used);
    forall j: nat | Allocated(d, j) ensures Allocated(c, f[j]) && CellSurvives(a.words, b.words, f[j], j) {
      OneSurvives(q, m, a, b, f[j]);
    }
    forall i | i in m.to ensures Allocated(d, m.to[i]) && m.to[i] in f && f[m.to[i]] == i {
      OneSurvives(q, m, a, b, i);
    }
  }

  function NewIndex(q: Plan, j: nat): nat
    requires q.start <= j
  {
    (j - q.start) / 2
  }

  lemma {:induction false} NewIndexIsLeft(q: Plan, n: nat, j: nat)
    requires q.start % 2 == 0 && InSpace(q.start, 2 * n, j)
    ensures NewIndex(q, j) < n && q.start + 2 * NewIndex(q, j) == j
  {
  }

  /** After a collection there are no cells but survivors. */
  lemma {:induction false} MovedSurvive(q: Plan, m: Moves, a: Store, b: Store)
    requires q.start % 2 == 0 && Ordered(q, m) && Iso(m.to, a, b)
    requires forall i :: i in m.to ==> InSpace(q.start, 2 * |m.order|, m.to[i])
    ensures Collected(m.to, Space(a.words, q.from, q.used), Space(b.words, q.start, 2 * |m.order|))
  {
    var d := Space(b.words, q.start, 2 * |m.order|);
    forall j: nat | Allocated(d, j) ensures NewIndex(q, j) < |m.order| && q.start + 2 * NewIndex(q, j) == j {
      NewIndexIsLeft(q, |m.order|, j);
    }
    hide NewIndex, Iso;
    var f := map j: nat | j < |b.words| && Allocated(d, j) :: m.order[NewIndex(q, j)];
    InverseSurvives(q, m, a, b, d, f);
  }

  function End(a: Space): nat {
    a.start + a.used
  }

  // A space with a new cell at its end.
  function WithCell(a: Space, car: Value, cdr: Value): Space
    requires End(a) + 1 < |a.words|
  {
    Space(a.words[End(a) := car][End(a) + 1 := cdr], a.start, a.used + 2)
  }

  predicate Inverts(move: map<nat, nat>, f: map<nat, nat>) {
    forall i :: i in move ==> move[i] in f && f[move[i]] == i
  }

  /** Every cell of `b` is where one of `a` has moved. */
  ghost predicate Collected(move: map<nat, nat>, a: Space, b: Space) {
    (exists f :: Survives(a, b, f) && Inverts(move, f)) && forall i :: i in move ==> Allocated(b, move[i])
  }

  lemma {:induction false} CollectedDescends(move: map<nat, nat>, a: Space, b: Space, c: Cons, d: Cons)
    requires Collected(move, a, b) && ConsMoves(move, c, d) && !c.IsNever()
    ensures Descends(a, b, c.index, d.index)
  {
    var f :| Survives(a, b, f) && Inverts(move, f);
    assert move[c.index] in f;
  }

  /** Every cell of `b` was one of `a`, and `j` was `i`. */
  ghost predicate Descends(a: Space, b: Space, i: nat, j: nat) {
    Allocated(b, j) && exists f :: Survives(a, b, f) && j in f && f[j] == i
  }

  /** Without a collection every cell stays where it is. */
  lemma {:induction false} NewCellDescends(a: Space, car: Value, cdr: Value)
    requires End(a) + 1 < |a.words| && End(a) % 2 == 0
    ensures var b := WithCell(a, car, cdr); Descends(b, b, End(a), End(a))
  {
    var b := WithCell(a, car, cdr);
    var f := map j: nat | j < |b.words| && Allocated(b, j) :: j;
    assert Survives(b, b, f);
  }
}
