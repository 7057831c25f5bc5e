/** The vectors of `(stak vector)` in `prelude.scm`, trees of lists of up to 64 elements, and the trees that the
    compiler builds at once in `compile.scm`. */
module Vectors {
  import opened Options
  import opened Arithmetic

  const FACTOR: nat := 64

  datatype Node<T> = Leaf(items: seq<T>) | Inner(children: seq<Node<T>>)

  // ----- heights and capacities -----

  /** `vector-height`. */
  function Height(length: nat): nat {
    if length <= FACTOR then 0 else 1 + Height(1 + (length - 1) / FACTOR)
  }

  // The number of elements below a node of the height.
  function Capacity(height: nat): (c: nat)
    ensures c >= FACTOR
  {
    if height == 0 then FACTOR else FACTOR * Capacity(height - 1)
  }

  // The number of elements below an element of a node of the height.
  function Stride(height: nat): (p: nat)
    ensures p >= 1 && Capacity(height) == FACTOR * p
  {
    if height == 0 then 1 else Capacity(height - 1)
  }

  function Power(base: nat, n: nat): nat {
    if n == 0 then 1 else base * Power(base, n - 1)
  }

  lemma {:induction false} CapacityIsPower(height: nat)
    ensures Capacity(height) == Power(64, height + 1)
  {
    if height == 0 {
      assert Power(64, 1) == 64 * Power(64, 0);
    } else {
      CapacityIsPower(height - 1);
    }
  }

  /** The height is the least that suffices: a tree holds up to 64 elements for every element of one that is less
      high. */
  lemma {:induction false} HeightIsLeast(n: nat)
    ensures n <= Capacity(Height(n)) == Power(64, Height(n) + 1)
    ensures Height(n) > 0 ==> Power(64, Height(n)) == Capacity(Height(n) - 1) < n
    decreases n
  {
    if n > FACTOR {
      var m := 1 + (n - 1) / FACTOR;
      HeightIsLeast(m);
      if Height(m) > 0 {
        assert Capacity(Height(m)) == FACTOR * Capacity(Height(m) - 1);
      }
    }
    CapacityIsPower(Height(n));
    if Height(n) > 0 {
      CapacityIsPower(Height(n) - 1);
    }
  }

  lemma {:induction false} CapacityGrows(h: nat, k: nat)
    requires h <= k
    ensures Capacity(h) <= Capacity(k)
    decreases k
  {
    if h < k {
      CapacityGrows(h, k - 1);
    }
  }

  lemma {:induction false} HeightIs(n: nat, h: nat)
    requires n <= Capacity(h) && (h > 0 ==> Capacity(h - 1) < n)
    ensures Height(n) == h
  {
    HeightIsLeast(n);
    if Height(n) < h {
      CapacityGrows(Height(n), h - 1);
    } else if Height(n) > h {
      CapacityGrows(h, Height(n) - 1);
    }
  }

  // ----- the tree of a sequence -----

  /** The tree of the height that holds some elements, every node but the last of its list being full. */
  function Build<T>(xs: seq<T>, h: nat): Node<T>
    decreases h, |xs|, 0
  {
    if h == 0 then Leaf(xs) else Inner(BuildList(xs, h - 1))
  }

  function BuildList<T>(xs: seq<T>, h: nat): (r: seq<Node<T>>)
    ensures |r| > 0
    decreases h, |xs|, 1
  {
    var c := Capacity(h);
    if |xs| <= c then [Build(xs, h)] else [Build(xs[..c], h)] + BuildList(xs[c..], h)
  }

  function Root<T>(xs: seq<T>): Node<T> {
    Build(xs, Height(|xs|))
  }

  // What the last node of a list holds.
  function Last<T>(xs: seq<T>, c: nat): (r: seq<T>)
    requires c > 0
    ensures |r| <= c && (xs != [] ==> r != [])
    decreases |xs|
  {
    if |xs| <= c then xs else Last(xs[c..], c)
  }

  lemma {:induction false} BuildListLast<T>(xs: seq<T>, h: nat)
    requires xs != []
    ensures var r := BuildList(xs, h);
            && r[|r| - 1] == Build(Last(xs, Capacity(h)), h)
            && |xs| == (|r| - 1) * Capacity(h) + |Last(xs, Capacity(h))|
    decreases |xs|
  {
    var c := Capacity(h);
    if |xs| > c {
      BuildListLast(xs[c..], h);
      var rest := BuildList(xs[c..], h);
      assert BuildList(xs, h) == [Build(xs[..c], h)] + rest;
      Distribute(|rest| - 1, 1, c);
      hide BuildList, Build;
    }
  }

  // ----- pushing -----

  /** A node after a push, and the sibling that the push has started. */
  datatype Pushed<T> = Pushed(node: Node<T>, sibling: Option<Node<T>>)

  /** `node-push!` for an element of a node. */
  function PushItem<T>(t: Node<T>, x: T): Pushed<T>
    requires t.Leaf?
  {
    if |t.items| < FACTOR then Pushed(Leaf(t.items + [x]), None) else Pushed(t, Some(Leaf([x])))
  }

  function PushChild<T>(t: Node<T>, child: Node<T>): Pushed<T>
    requires t.Inner?
  {
    if |t.children| < FACTOR then Pushed(Inner(t.children + [child]), None) else Pushed(t, Some(Inner([child])))
  }

  /** The loop of `vector-push!`. */
  function Push<T>(t: Node<T>, x: T): Pushed<T>
    decreases t
  {
    match t
    case Leaf(_) => PushItem(t, x)
    case Inner(cs) =>
      if cs == [] then Pushed(t, None)
      else
        var last := Push(cs[|cs| - 1], x);
        var t' := Inner(cs[|cs| - 1 := last.node]);
        if last.sibling.None? then Pushed(t', None) else PushChild(t', last.sibling.value)
  }

  lemma {:induction false} BuildOne<T>(x: T, h: nat)
    ensures BuildList([x], h) == [Build([x], h)]
  {
  }

  lemma {:induction false} BuildListGrows<T>(xs: seq<T>, x: T, h: nat)
    requires xs != []
    ensures var r, last := BuildList(xs, h), Last(xs, Capacity(h));
            BuildList(xs + [x], h)
            == if |last| < Capacity(h) then r[|r| - 1 := Build(last + [x], h)] else r + [Build([x], h)]
    decreases |xs|
  {
    var c := Capacity(h);
    if |xs| > c {
      BuildListGrows(xs[c..], x, h);
      assert (xs + [x])[..c] == xs[..c] && (xs + [x])[c..] == xs[c..] + [x];
    } else if |xs| == c {
      assert (xs + [x])[..c] == xs && (xs + [x])[c..] == [x];
      BuildOne(x, h);
    }
  }

  /** A push adds the element to the tree of a sequence, or starts a sibling if the tree is full. */
  lemma {:induction false} PushBuilds<T>(xs: seq<T>, x: T, h: nat)
    requires 0 < |xs| <= Capacity(h)
    ensures Push(Build(xs, h), x)
            == if |xs| < Capacity(h) then Pushed(Build(xs + [x], h), None)
               else Pushed(Build(xs, h), Some(Build([x], h)))
    decreases h
  {
    if h > 0 {
      hide BuildList, Last;
      var r, last, c := BuildList(xs, h - 1), Last(xs, Capacity(h - 1)), Capacity(h - 1);
      BuildListLast(xs, h - 1);
      BuildListGrows(xs, x, h - 1);
      PushBuilds(last, x, h - 1);
      BuildOne(x, h - 1);
      assert BuildList([x], h - 1) == [Build([x], h - 1)];
      LastIsFull(|xs|, |r|, |last|, c);
      assert r[|r| - 1 := Build(last, h - 1)] == r;
      hide Capacity, Build;
    }
  }

  // A list of nodes is full exactly if it has 64 nodes and the last of them is full.
  lemma {:induction false} LastIsFull(n: nat, nodes: nat, last: nat, c: nat)
    requires nodes > 0 && n == (nodes - 1) * c + last && 0 < last <= c
    ensures last == c ==> (n < FACTOR * c <==> nodes < FACTOR)
    ensures last < c && n <= FACTOR * c ==> n < FACTOR * c
  {
    Compare(nodes, FACTOR, c);
    Compare(FACTOR, nodes, c);
    Distribute(nodes - 1, 1, c);
  }

  // ----- a whole vector -----

  datatype Tree<T> = Tree(length: nat, root: Node<T>)

  /** The vector of a sequence. */
  function Of<T>(xs: seq<T>): Tree<T> {
    Tree(|xs|, Root(xs))
  }

  /** `vector-push!` on the length and the root. */
  function PushTo<T>(v: Tree<T>, x: T): Tree<T> {
    var root :=
      if v.root == Leaf([]) then Leaf([x])
      else
        var r := Push(v.root, x);
        if r.sibling.Some? then Inner([r.node, r.sibling.value]) else r.node;
    Tree(v.length + 1, root)
  }

  lemma {:induction false} NeverEmpty<T>(xs: seq<T>, h: nat)
    requires xs != []
    ensures Build(xs, h) != Leaf([])
  {
  }

  /** Pushing appends. */
  lemma {:induction false} PushAppends<T>(xs: seq<T>, x: T)
    ensures PushTo(Of(xs), x) == Of(xs + [x])
  {
    if xs == [] {
      assert Root([x]) == Leaf([x]) && xs + [x] == [x];
    } else {
      var h := Height(|xs|);
      HeightIsLeast(|xs|);
      NeverEmpty(xs, h);
      PushBuilds(xs, x, h);
      if |xs| < Capacity(h) {
        HeightIs(|xs| + 1, h);
      } else {
        HeightIs(|xs| + 1, h + 1);
        BuildListGrows(xs, x, h);
        assert BuildList(xs, h) == [Build(xs, h)];
        assert [Build(xs, h)] + [Build([x], h)] == [Build(xs, h), Build([x], h)];
      }
    }
  }

  // ----- reading and writing -----

  function Quotient(j: nat, c: nat): nat
    requires c > 0
  {
    j / c
  }

  function Remainder(j: nat, c: nat): nat
    requires c > 0
  {
    j % c
  }

  /** `vector-cell` and what is in the cell. */
  function At<T>(t: Node<T>, p: nat, index: nat): Option<T>
    requires p > 0
    decreases t
  {
    var i := Quotient(index, p);
    match t
    case Leaf(items) => if i < |items| then Some(items[i]) else None
    case Inner(cs) => if i < |cs| && p / FACTOR > 0 then At(cs[i], p / FACTOR, Remainder(index, p)) else None
  }

  function Put<T>(t: Node<T>, p: nat, index: nat, x: T): Node<T>
    requires p > 0
    decreases t
  {
    var i := Quotient(index, p);
    match t
    case Leaf(items) => if i < |items| then Leaf(items[i := x]) else t
    case Inner(cs) =>
      if i < |cs| && p / FACTOR > 0 then Inner(cs[i := Put(cs[i], p / FACTOR, Remainder(index, p), x)]) else t
  }

  // The elements below the node `i` of a list.
  function Chunk<T>(xs: seq<T>, c: nat, i: nat): (r: seq<T>)
    requires c > 0
    ensures |r| <= c
    decreases |xs|
  {
    if |xs| <= c then xs else if i == 0 then xs[..c] else Chunk(xs[c..], c, i - 1)
  }

  lemma {:induction false} FirstChunk(j: nat, c: nat)
    requires j < c
    ensures Quotient(j, c) == 0 && Remainder(j, c) == j
  {
    QuotientIs(j, c, 0, j);
  }

  lemma {:induction false} NextChunk(j: nat, c: nat)
    requires c > 0 && j >= c
    ensures Quotient(j, c) == Quotient(j - c, c) + 1 && Remainder(j, c) == Remainder(j - c, c)
  {
    var q, r := (j - c) / c, (j - c) % c;
    assert j - c == q * c + r;
    Distribute(q, 1, c);
    QuotientIs(j, c, q + 1, r);
  }

  /** The element `j` of a sequence is in the chunk `Quotient(j, c)`. */
  lemma {:induction false} InChunk<T>(xs: seq<T>, h: nat, j: nat)
    requires j < |xs|
    ensures var c, r := Capacity(h), BuildList(xs, h);
            && Quotient(j, c) < |r| && r[Quotient(j, c)] == Build(Chunk(xs, c, Quotient(j, c)), h)
            && Remainder(j, c) < |Chunk(xs, c, Quotient(j, c))|
            && Chunk(xs, c, Quotient(j, c))[Remainder(j, c)] == xs[j]
    decreases |xs|
  {
    hide Quotient, Remainder;
    var c := Capacity(h);
    if j < c {
      FirstChunk(j, c);
    } else {
      NextChunk(j, c);
      InChunk(xs[c..], h, j - c);
    }
  }

  /** Writing to a chunk writes to the sequence. */
  lemma {:induction false} PutInChunk<T>(xs: seq<T>, h: nat, j: nat, x: T)
    requires j < |xs|
    ensures var c, r := Capacity(h), BuildList(xs, h);
            && Quotient(j, c) < |r| && Remainder(j, c) < |Chunk(xs, c, Quotient(j, c))|
            && BuildList(xs[j := x], h)
               == r[Quotient(j, c) := Build(Chunk(xs, c, Quotient(j, c))[Remainder(j, c) := x], h)]
    decreases |xs|
  {
    hide Quotient, Remainder;
    var c := Capacity(h);
    InChunk(xs, h, j);
    if |xs| > c {
      if j < c {
        FirstChunk(j, c);
        assert xs[j := x][..c] == xs[..c][j := x] && xs[j := x][c..] == xs[c..];
      } else {
        NextChunk(j, c);
        PutInChunk(xs[c..], h, j - c, x);
        assert xs[j := x][..c] == xs[..c] && xs[j := x][c..] == xs[c..][j - c := x];
      }
    } else {
      FirstChunk(j, c);
    }
  }

  lemma {:induction false} DivideByOne(j: nat)
    ensures Quotient(j, 1) == j
  {
  }

  lemma {:induction false} StrideBelow(h: nat)
    requires h > 0
    ensures Stride(h) / FACTOR == Stride(h - 1) && Stride(h) == Capacity(h - 1)
  {
  }

  /** References see the element at the index. */
  lemma {:induction false} AtIsIndex<T>(xs: seq<T>, h: nat, j: nat)
    requires j < |xs|
    ensures At(Build(xs, h), Stride(h), j) == Some(xs[j])
    decreases h
  {
    hide Quotient, Remainder;
    DivideByOne(j);
    if h > 0 {
      StrideBelow(h);
      InChunk(xs, h - 1, j);
      AtIsIndex(Chunk(xs, Stride(h), Quotient(j, Stride(h))), h - 1, Remainder(j, Stride(h)));
    }
  }

  /** Assignments change the element at the index and nothing else. */
  lemma {:induction false} PutIsUpdate<T>(xs: seq<T>, h: nat, j: nat, x: T)
    requires j < |xs|
    ensures Put(Build(xs, h), Stride(h), j, x) == Build(xs[j := x], h)
    decreases h
  {
    hide Quotient, Remainder;
    DivideByOne(j);
    if h > 0 {
      StrideBelow(h);
      InChunk(xs, h - 1, j);
      PutInChunk(xs, h - 1, j, x);
      PutIsUpdate(Chunk(xs, Stride(h), Quotient(j, Stride(h))), h - 1, Remainder(j, Stride(h)), x);
    }
  }

  // ----- listing -----

  function Elements<T>(t: Node<T>): seq<T>
    decreases t, 0
  {
    match t
    case Leaf(items) => items
    case Inner(cs) => ElementsOf(cs)
  }

  function ElementsOf<T>(ts: seq<Node<T>>): seq<T>
    decreases ts, |ts|
  {
    if ts == [] then [] else Elements(ts[0]) + ElementsOf(ts[1..])
  }

  lemma {:induction false} BuildHolds<T>(xs: seq<T>, h: nat)
    ensures Elements(Build(xs, h)) == xs
    decreases h, |xs|, 0
  {
    if h > 0 {
      BuildListHolds(xs, h - 1);
    }
  }

  lemma {:induction false} BuildListHolds<T>(xs: seq<T>, h: nat)
    ensures ElementsOf(BuildList(xs, h)) == xs
    decreases h, |xs|, 1
  {
    var c := Capacity(h);
    if |xs| <= c {
      BuildHolds(xs, h);
      assert ElementsOf([Build(xs, h)]) == Elements(Build(xs, h)) + [];
    } else {
      BuildHolds(xs[..c], h);
      BuildListHolds(xs[c..], h);
      assert BuildList(xs, h)[1..] == BuildList(xs[c..], h);
    }
  }

  // The lists of some nodes appended.
  function Join<T>(ts: seq<Node<T>>, h: nat): Node<T> {
    if h == 0 then Leaf(JoinItems(ts)) else Inner(JoinChildren(ts))
  }

  function JoinItems<T>(ts: seq<Node<T>>): seq<T> {
    if ts == [] then [] else (if ts[0].Leaf? then ts[0].items else []) + JoinItems(ts[1..])
  }

  function JoinChildren<T>(ts: seq<Node<T>>): seq<Node<T>> {
    if ts == [] then [] else (if ts[0].Inner? then ts[0].children else []) + JoinChildren(ts[1..])
  }

  // All leaves are on the same level.
  ghost predicate IsLevel<T>(t: Node<T>, h: nat)
    decreases h
  {
    if h == 0 then t.Leaf? else t.Inner? && forall c <- t.children :: IsLevel(c, h - 1)
  }

  lemma {:induction false} ElementsAppend<T>(a: seq<Node<T>>, b: seq<Node<T>>)
    ensures ElementsOf(a + b) == ElementsOf(a) + ElementsOf(b)
    decreases |a|
  {
    if a == [] {
      assert a + b == b;
    } else {
      ElementsAppend(a[1..], b);
      assert (a + b)[1..] == a[1..] + b;
    }
  }

  lemma {:induction false} JoinKeepsElements<T>(ts: seq<Node<T>>, h: nat)
    requires forall t <- ts :: IsLevel(t, h)
    ensures Elements(Join(ts, h)) == ElementsOf(ts) && IsLevel(Join(ts, h), h)
    decreases |ts|
  {
    if ts != [] {
      assert IsLevel(ts[0], h);
      JoinKeepsElements(ts[1..], h);
      if h > 0 {
        ElementsAppend(ts[0].children, JoinChildren(ts[1..]));
      }
    }
  }

  lemma {:induction false} BuildIsLevel<T>(xs: seq<T>, h: nat)
    ensures IsLevel(Build(xs, h), h)
    decreases h, |xs|, 0
  {
    if h > 0 {
      BuildListIsLevel(xs, h - 1);
    }
  }

  lemma {:induction false} BuildListIsLevel<T>(xs: seq<T>, h: nat)
    ensures forall t <- BuildList(xs, h) :: IsLevel(t, h)
    decreases h, |xs|, 1
  {
    var c := Capacity(h);
    if |xs| <= c {
      BuildIsLevel(xs, h);
    } else {
      BuildIsLevel(xs[..c], h);
      BuildListIsLevel(xs[c..], h);
    }
  }

  // ----- trees that are built at once -----

  // Lists of up to 64 elements.
  function Leaves<T>(xs: seq<T>): seq<Node<T>> {
    if xs == [] then []
    else if |xs| <= FACTOR then [Leaf(xs)] else [Leaf(xs[..FACTOR])] + Leaves(xs[FACTOR..])
  }

  function Parents<T>(ts: seq<Node<T>>): (r: seq<Node<T>>)
    ensures |r| <= |ts| && (|ts| > 1 ==> |r| < |ts|)
  {
    if ts == [] then []
    else if |ts| <= FACTOR then [Inner(ts)] else [Inner(ts[..FACTOR])] + Parents(ts[FACTOR..])
  }

  function Bundle<T>(ts: seq<Node<T>>): Node<T>
    requires ts != []
    decreases |ts|
  {
    if |ts| == 1 then ts[0] else Bundle(Parents(ts))
  }

  /** `list->vector-nodes` of the compiler. */
  function Bulk<T>(xs: seq<T>): Node<T> {
    if xs == [] then Leaf([]) else Bundle(Leaves(xs))
  }

  lemma {:induction false} LeavesAreBuilt<T>(xs: seq<T>)
    requires xs != []
    ensures Leaves(xs) == BuildList(xs, 0)
    decreases |xs|
  {
    if |xs| > FACTOR {
      LeavesAreBuilt(xs[FACTOR..]);
    }
  }

  /** The first nodes of a list hold the first elements. */
  lemma {:induction false} FirstNodes<T>(xs: seq<T>, h: nat, k: nat)
    requires 0 < k && k * Capacity(h) < |xs|
    ensures var n, r := k * Capacity(h), BuildList(xs, h);
            k < |r| && r[..k] == BuildList(xs[..n], h) && r[k..] == BuildList(xs[n..], h)
    decreases k
  {
    var c, n, r := Capacity(h), k * Capacity(h), BuildList(xs, h);
    if k == 1 {
      assert r[1..] == BuildList(xs[c..], h) && r[..1] == [Build(xs[..c], h)];
    } else {
      Distribute(k - 1, 1, c);
      Positive(k - 1, c);
      FirstNodes(xs[c..], h, k - 1);
      var m, rest := (k - 1) * c, BuildList(xs[c..], h);
      assert xs[c..][..m] == xs[..n][c..] && xs[c..][m..] == xs[n..] && xs[..n][..c] == xs[..c];
      assert r[..k] == [r[0]] + rest[..k - 1] && r[k..] == rest[k - 1..];
    }
  }

  /** Bundling the nodes of one height gives those of the next. */
  lemma {:induction false} ParentsAreBuilt<T>(xs: seq<T>, h: nat)
    requires xs != []
    ensures Parents(BuildList(xs, h)) == BuildList(xs, h + 1)
    decreases |xs|
  {
    var c, r := Capacity(h), BuildList(xs, h);
    BuildListLast(xs, h);
    if |xs| <= Capacity(h + 1) {
      Compare(|r| - 1, FACTOR, c);
      assert BuildList(xs, h + 1) == [Inner(r)];
    } else {
      FirstNodes(xs, h, FACTOR);
      ParentsAreBuilt(xs[FACTOR * c..], h);
    }
  }

  lemma {:induction false} BundleIsBuilt<T>(xs: seq<T>, h: nat)
    requires xs != [] && (h > 0 ==> Capacity(h - 1) < |xs|)
    ensures Bundle(BuildList(xs, h)) == Root(xs)
    decreases |BuildList(xs, h)|
  {
    var r := BuildList(xs, h);
    BuildListLast(xs, h);
    if |r| == 1 {
      HeightIs(|xs|, h);
    } else {
      Positive(|r| - 1, Capacity(h));
      ParentsAreBuilt(xs, h);
      BundleIsBuilt(xs, h + 1);
    }
  }

  /** The compiler builds exactly the tree that pushing the elements one by one builds. */
  lemma {:induction false} BulkIsRoot<T>(xs: seq<T>)
    ensures Bulk(xs) == Root(xs)
  {
    if xs != [] {
      LeavesAreBuilt(xs);
      BundleIsBuilt(xs, 0);
    }
  }

  // ----- vectors -----

  class Vector<T(!new)> {
    var length: nat
    var root: Node<T>
    ghost var contents: seq<T>

    ghost predicate Valid()
      reads this
    {
      length == |contents| && root == Root(contents)
    }

    constructor ()
      ensures Valid() && contents == []
    {
      length, root, contents := 0, Leaf([]), [];
    }

    method PushBack(x: T)
      requires Valid()
      modifies this
      ensures Valid() && contents == old(contents) + [x]
    {
      PushAppends(contents, x);
      if root == Leaf([]) {
        root := Leaf([x]);
      } else {
        var r := Push(root, x);
        root := if r.sibling.Some? then Inner([r.node, r.sibling.value]) else r.node;
      }
      length := length + 1;
      contents := contents + [x];
    }

    method Get(index: nat) returns (r: Option<T>)
      requires Valid() && index < length
      ensures r == Some(contents[index])
    {
      AtIsIndex(contents, Height(length), index);
      r := At(root, Stride(Height(length)), index);
    }

    method Set(index: nat, x: T)
      requires Valid() && index < length
      modifies this
      ensures Valid() && contents == old(contents)[index := x]
    {
      PutIsUpdate(contents, Height(length), index, x);
      root := Put(root, Stride(Height(length)), index, x);
      contents := contents[index := x];
    }

    method ToList() returns (r: seq<T>)
      requires Valid()
      ensures r == contents
    {
      var height, xs := Height(length), root;
      BuildHolds(contents, height);
      BuildIsLevel(contents, height);
      while height > 0
        invariant IsLevel(xs, height) && Elements(xs) == contents
      {
        JoinKeepsElements(xs.children, height - 1);
        height, xs := height - 1, Join(xs.children, height - 1);
      }
      r := xs.items;
    }
  }

  method ListToVector<T(!new)>(xs: seq<T>) returns (r: Vector<T>)
    ensures fresh(r) && r.Valid() && r.contents == xs
    ensures r.root == Bulk(xs)
  {
    r := new Vector();
    for i := 0 to |xs|
      invariant fresh(r) && r.Valid() && r.contents == xs[..i]
    {
      r.PushBack(xs[i]);
      assert xs[..i] + [xs[i]] == xs[..i + 1];
    }
    assert xs[..|xs|] == xs;
    BulkIsRoot(xs);
  }
}
