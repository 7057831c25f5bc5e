/** The AA tree of `(stak mapping)` in `prelude.scm` as a value: insertion, search and listing. */
module Mappings {
  import opened Options

  datatype Tree<T> = Empty | Node(value: T, level: nat, left: Tree<T>, right: Tree<T>)

  type Less<!T> = (T, T) -> bool

  // ----- operations -----

  function Skew<T>(t: Tree<T>): Tree<T> {
    if t.Node? && t.left.Node? && t.level == t.left.level
    then t.left.(right := t.(left := t.left.right))
    else t
  }

  function Split<T>(t: Tree<T>): Tree<T> {
    if t.Node? && t.right.Node? && t.right.right.Node? && t.level == t.right.right.level
    then t.right.(left := t.(right := t.right.left), level := t.right.level + 1)
    else t
  }

  function Balance<T>(t: Tree<T>): Tree<T> {
    Split(Skew(t))
  }

  function Insert<T>(t: Tree<T>, x: T, less: Less<T>): Tree<T> {
    match t
    case Empty => Node(x, 0, Empty, Empty)
    case Node(y, _, l, r) =>
      if less(x, y) then Balance(t.(left := Insert(l, x, less)))
      else if less(y, x) then Balance(t.(right := Insert(r, x, less)))
      else t
  }

  function Find<T>(t: Tree<T>, x: T, less: Less<T>): Option<T> {
    match t
    case Empty => None
    case Node(y, _, l, r) =>
      if less(x, y) then Find(l, x, less) else if less(y, x) then Find(r, x, less) else Some(y)
  }

  function ListOnto<T>(t: Tree<T>, xs: seq<T>): seq<T> {
    match t
    case Empty => xs
    case Node(y, _, l, r) => ListOnto(l, [y] + ListOnto(r, xs))
  }

  function InsertAll<T>(t: Tree<T>, xs: seq<T>, less: Less<T>): Tree<T>
    decreases |xs|
  {
    if xs == [] then t else InsertAll(Insert(t, xs[0], less), xs[1..], less)
  }

  // ----- the values of a tree -----

  function Values<T>(t: Tree<T>): seq<T> {
    match t
    case Empty => []
    case Node(y, _, l, r) => Values(l) + [y] + Values(r)
  }

  lemma {:induction false} ListIsValues<T>(t: Tree<T>, xs: seq<T>)
    ensures ListOnto(t, xs) == Values(t) + xs
  {
    if t.Node? {
      ListIsValues(t.right, xs);
      ListIsValues(t.left, [t.value] + ListOnto(t.right, xs));
      assert Values(t.left) + ([t.value] + (Values(t.right) + xs)) == Values(t) + xs;
    }
  }

  /** Rotations keep the values in order. */
  lemma {:induction false} BalanceKeepsValues<T>(t: Tree<T>)
    ensures Values(Balance(t)) == Values(t)
  {
    SkewKeepsValues(t);
    SplitKeepsValues(Skew(t));
  }

  lemma {:induction false} SkewKeepsValues<T>(t: Tree<T>)
    ensures Values(Skew(t)) == Values(t)
  {
    if Skew(t) != t {
      var l := t.left;
      assert Values(t) == Values(l.left) + [l.value] + (Values(l.right) + [t.value] + Values(t.right));
    }
  }

  lemma {:induction false} SplitKeepsValues<T>(t: Tree<T>)
    ensures Values(Split(t)) == Values(t)
  {
    if Split(t) != t {
      var r := t.right;
      assert Values(t) == (Values(t.left) + [t.value] + Values(r.left)) + [r.value] + Values(r.right);
    }
  }

  // ----- strict weak orders -----

  predicate Same<T>(x: T, y: T, less: Less<T>) {
    !less(x, y) && !less(y, x)
  }

  ghost predicate IsStrictWeakOrder<T(!new)>(less: Less<T>) {
    && (forall x :: !less(x, x))
    && (forall x, y, z :: less(x, y) && less(y, z) ==> less(x, z))
    && (forall x, y, z :: Same(x, y, less) && Same(y, z, less) ==> Same(x, z, less))
  }

  /** What is the same compares the same. */
  lemma {:induction false} SameCompares<T(!new)>(x: T, y: T, z: T, less: Less<T>)
    requires IsStrictWeakOrder(less) && Same(x, y, less)
    ensures less(x, z) == less(y, z) && less(z, x) == less(z, y)
  {
    assert less(x, z) && !less(y, z) ==> less(z, y) || Same(y, z, less);
    assert less(y, z) && !less(x, z) ==> less(z, x) || Same(x, z, less);
    assert less(z, x) && !less(z, y) ==> less(y, z) || Same(y, z, less);
    assert less(z, y) && !less(z, x) ==> less(x, z) || Same(x, z, less);
    assert Same(y, x, less);
  }

  predicate Sorted<T(!new)>(xs: seq<T>, less: Less<T>) {
    forall i, j :: 0 <= i < j < |xs| ==> less(xs[i], xs[j])
  }

  lemma {:induction false} SortedParts<T(!new)>(a: seq<T>, y: T, b: seq<T>, less: Less<T>)
    requires Sorted(a + [y] + b, less)
    ensures Sorted(a, less) && Sorted(b, less)
    ensures (forall x <- a :: less(x, y)) && (forall x <- b :: less(y, x))
  {
    var xs := a + [y] + b;
    assert forall i :: 0 <= i < |a| ==> xs[i] == a[i];
    assert xs[|a|] == y;
    assert forall i :: 0 <= i < |b| ==> xs[|a| + 1 + i] == b[i];
  }

  lemma {:induction false} SortedJoin<T(!new)>(a: seq<T>, y: T, b: seq<T>, less: Less<T>)
    requires IsStrictWeakOrder(less) && Sorted(a, less) && Sorted(b, less)
    requires (forall x <- a :: less(x, y)) && (forall x <- b :: less(y, x))
    ensures Sorted(a + [y] + b, less)
  {
    var xs := a + [y] + b;
    forall i, j | 0 <= i < j < |xs| ensures less(xs[i], xs[j]) {
      assert i < |a| ==> xs[i] in a;
      assert j > |a| ==> xs[j] in b;
    }
  }

  // ----- insertion into a set -----

  ghost predicate Has<T>(xs: seq<T>, x: T, less: Less<T>) {
    exists y :: y in xs && Same(x, y, less)
  }

  /** `ys` is `xs` with `x` put where it belongs, unless something that is the same is there already. */
  ghost predicate Inserted<T>(xs: seq<T>, x: T, ys: seq<T>, less: Less<T>) {
    if Has(xs, x, less) then ys == xs
    else exists k :: 0 <= k <= |xs| && ys == xs[..k] + [x] + xs[k..]
  }

  /** Insertion adds a value to the sorted values of the tree as to a set, and keeps them sorted. */
  lemma {:induction false} InsertIsSetInsertion<T(!new)>(t: Tree<T>, x: T, less: Less<T>)
    requires IsStrictWeakOrder(less) && Sorted(Values(t), less)
    ensures Inserted(Values(t), x, Values(Insert(t, x, less)), less)
    ensures Sorted(Values(Insert(t, x, less)), less)
    ensures forall y :: y in Values(Insert(t, x, less)) ==> y in Values(t) || y == x
  {
    match t
    case Empty =>
      var xs: seq<T> := [];
      assert Values(Insert(t, x, less)) == xs[..0] + [x] + xs[0..];
    case Node(y, _, l, r) =>
      SortedParts(Values(l), y, Values(r), less);
      if less(x, y) {
        InsertIsSetInsertion(l, x, less);
        var l' := Insert(l, x, less);
        BalanceKeepsValues(t.(left := l'));
        SortedJoin(Values(l'), y, Values(r), less);
        InsertedLeft(Values(l), x, Values(l'), y, Values(r), less);
      } else if less(y, x) {
        InsertIsSetInsertion(r, x, less);
        var r' := Insert(r, x, less);
        BalanceKeepsValues(t.(right := r'));
        SortedJoin(Values(l), y, Values(r'), less);
        InsertedRight(Values(l), y, Values(r), x, Values(r'), less);
      } else {
        assert y in Values(t);
      }
  }

  lemma {:induction false} InsertedLeft<T(!new)>(a: seq<T>, x: T, a': seq<T>, y: T, b: seq<T>, less: Less<T>)
    requires IsStrictWeakOrder(less) && Inserted(a, x, a', less) && less(x, y) && forall z <- b :: less(y, z)
    ensures Inserted(a + [y] + b, x, a' + [y] + b, less)
  {
    var xs := a + [y] + b;
    if Has(a, x, less) {
      var z :| z in a && Same(x, z, less);
      assert z in xs;
    } else {
      forall z | z in xs ensures !Same(x, z, less) {
        assert z in b || z == y || z in a;
      }
      var k :| 0 <= k <= |a| && a' == a[..k] + [x] + a[k..];
      assert a' + [y] + b == xs[..k] + [x] + xs[k..];
    }
  }

  lemma {:induction false} InsertedRight<T(!new)>(a: seq<T>, y: T, b: seq<T>, x: T, b': seq<T>, less: Less<T>)
    requires IsStrictWeakOrder(less) && Inserted(b, x, b', less) && less(y, x) && forall z <- a :: less(z, y)
    ensures Inserted(a + [y] + b, x, a + [y] + b', less)
  {
    var xs := a + [y] + b;
    if Has(b, x, less) {
      var z :| z in b && Same(x, z, less);
      assert z in xs;
    } else {
      forall z | z in xs ensures !Same(x, z, less) {
        assert z in b || z == y || z in a;
      }
      var k :| 0 <= k <= |b| && b' == b[..k] + [x] + b[k..];
      var m := |a| + 1 + k;
      assert xs[..m] == a + [y] + b[..k] && xs[m..] == b[k..];
      assert a + [y] + b' == xs[..m] + [x] + xs[m..];
    }
  }

  /** Searching finds the value that is the same exactly if there is one. */
  lemma {:induction false} FindIsMembership<T(!new)>(t: Tree<T>, x: T, less: Less<T>)
    requires IsStrictWeakOrder(less) && Sorted(Values(t), less)
    ensures Find(t, x, less).Some? <==> Has(Values(t), x, less)
    ensures Find(t, x, less).Some? ==>
      Find(t, x, less).value in Values(t) && Same(x, Find(t, x, less).value, less)
  {
    if t.Node? {
      SortedParts(Values(t.left), t.value, Values(t.right), less);
      FindIsMembership(t.left, x, less);
      FindIsMembership(t.right, x, less);
      forall z | z in Values(t) && Same(x, z, less) ensures Has(Values(t), x, less) && Find(t, x, less).Some? {
        assert z in Values(t.left) || z == t.value || z in Values(t.right);
        SameCompares(x, z, t.value, less);
      }
      if Find(t, x, less).Some? {
        assert Find(t, x, less).value in Values(t);
      }
    }
  }

  /** What is the same as something is the same as everything that is. */
  lemma {:induction false} SameHas<T(!new)>(xs: seq<T>, x: T, z: T, less: Less<T>)
    requires IsStrictWeakOrder(less) && Has(xs, x, less) && Same(z, x, less)
    ensures Has(xs, z, less)
  {
    var y :| y in xs && Same(x, y, less);
    assert Same(z, y, less);
  }

  lemma {:induction false} InsertedHas<T(!new)>(xs: seq<T>, x: T, ys: seq<T>, z: T, less: Less<T>)
    requires IsStrictWeakOrder(less) && Inserted(xs, x, ys, less)
    ensures Has(ys, z, less) <==> Has(xs, z, less) || Same(z, x, less)
  {
    if Has(xs, x, less) {
      if Same(z, x, less) {
        SameHas(xs, x, z, less);
      }
    } else {
      var k :| 0 <= k <= |xs| && ys == xs[..k] + [x] + xs[k..];
      assert xs == xs[..k] + xs[k..];
      assert forall y :: y in ys <==> y == x || y in xs;
      hide IsStrictWeakOrder, Inserted;
    }
  }

  /** After an insertion the value is found, and every other search finds what it found before. */
  lemma {:induction false} FindAfterInsert<T(!new)>(t: Tree<T>, x: T, z: T, less: Less<T>)
    requires IsStrictWeakOrder(less) && Sorted(Values(t), less)
    ensures var t' := Insert(t, x, less);
            Find(t', z, less).Some? <==> Find(t, z, less).Some? || Same(z, x, less)
  {
    hide IsStrictWeakOrder, Sorted, Values, Insert, Find, Inserted, Has;
    InsertIsSetInsertion(t, x, less);
    FindIsMembership(t, z, less);
    FindIsMembership(Insert(t, x, less), z, less);
    InsertedHas(Values(t), x, Values(Insert(t, x, less)), z, less);
  }

  // ----- levels -----

  function Level<T>(t: Tree<T>): int {
    if t.Node? then t.level else -1
  }

  // A right child on the same level.
  predicate IsWide<T>(t: Tree<T>) {
    t.Node? && Level(t.right) == t.level
  }

  /** The invariant of AA trees, with leaves on level zero: a left child is one level below, a right child at
      most, and a right grandchild at least one. */
  predicate IsAA<T>(t: Tree<T>) {
    t.Node? ==>
      && IsAA(t.left) && IsAA(t.right) && Level(t.left) == t.level - 1
      && (Level(t.right) == t.level || Level(t.right) == t.level - 1)
      && !(IsWide(t) && IsWide(t.right))
  }

  // A tree grows by at most a level, and only if it is empty or wide; then it is not wide any more.
  predicate Grows<T>(t: Tree<T>, t': Tree<T>) {
    Level(t') == Level(t) || (Level(t') == Level(t) + 1 && !IsWide(t') && (t.Empty? || IsWide(t)))
  }

  /** Insertion keeps the levels of an AA tree. */
  lemma {:induction false} InsertKeepsAA<T>(t: Tree<T>, x: T, less: Less<T>)
    requires IsAA(t)
    ensures IsAA(Insert(t, x, less)) && Grows(t, Insert(t, x, less)) && Insert(t, x, less).Node?
  {
    if t.Node? {
      if less(x, t.value) {
        InsertKeepsAA(t.left, x, less);
        BalanceLeft(t, Insert(t.left, x, less));
      } else if less(t.value, x) {
        InsertKeepsAA(t.right, x, less);
        BalanceRight(t, Insert(t.right, x, less));
      }
    }
  }

  lemma {:induction false} BalanceLeft<T>(t: Tree<T>, l: Tree<T>)
    requires t.Node? && IsAA(t) && l.Node? && IsAA(l) && Grows(t.left, l)
    ensures IsAA(Balance(t.(left := l))) && Grows(t, Balance(t.(left := l)))
  {
  }

  lemma {:induction false} BalanceRight<T>(t: Tree<T>, r: Tree<T>)
    requires t.Node? && IsAA(t) && r.Node? && IsAA(r) && Grows(t.right, r)
    ensures IsAA(Balance(t.(right := r))) && Grows(t, Balance(t.(right := r)))
  {
    assert Skew(t.(right := r)) == t.(right := r);
  }

  // ----- height -----

  function Height<T>(t: Tree<T>): nat {
    if t.Empty? then 0
    else 1 + if Height(t.left) > Height(t.right) then Height(t.left) else Height(t.right)
  }

  function Size<T>(t: Tree<T>): (n: nat)
    ensures n == |Values(t)|
  {
    if t.Empty? then 0 else Size(t.left) + 1 + Size(t.right)
  }

  function Power(n: nat): (r: nat)
    ensures r >= 1
  {
    if n == 0 then 1 else 2 * Power(n - 1)
  }

  lemma {:induction false} HeightByLevel<T>(t: Tree<T>)
    requires IsAA(t)
    ensures Height(t) <= 2 * (Level(t) + 1) - if t.Node? && !IsWide(t) then 1 else 0
  {
    if t.Node? {
      HeightByLevel(t.left);
      HeightByLevel(t.right);
    }
  }

  lemma {:induction false} SizeByLevel<T>(t: Tree<T>)
    requires IsAA(t)
    ensures Power(Level(t) + 1) <= Size(t) + 1
  {
    if t.Node? {
      SizeByLevel(t.left);
      SizeByLevel(t.right);
      if Level(t.right) == t.level {
        assert Power(t.level + 1) == 2 * Power(t.level);
      }
    }
  }

  lemma {:induction false} PowerSum(m: nat, n: nat)
    ensures Power(m + n) == Power(m) * Power(n)
  {
    if m > 0 {
      PowerSum(m - 1, n);
      assert Power(m) * Power(n) == 2 * (Power(m - 1) * Power(n));
    }
  }

  lemma {:induction false} PowerGrows(m: nat, n: nat)
    requires m <= n
    ensures Power(m) <= Power(n)
    decreases n
  {
    if m < n {
      PowerGrows(m, n - 1);
    }
  }

  /** The height is at most twice the binary logarithm of the size plus one: two to the height is at most the
      square of the size plus one. */
  lemma {:induction false} HeightIsLogarithmic<T>(t: Tree<T>)
    requires IsAA(t)
    ensures Power(Height(t)) <= (Size(t) + 1) * (Size(t) + 1)
  {
    var k := Level(t) + 1;
    HeightByLevel(t);
    SizeByLevel(t);
    PowerGrows(Height(t), k + k);
    PowerSum(k, k);
    Squares(Power(k), Size(t) + 1);
  }

  lemma {:induction false} Squares(m: nat, n: nat)
    requires m <= n
    ensures m * m <= n * n
  {
    assert m * m <= m * n <= n * n;
  }

  // ----- whole lists -----

  /** A mapping of any list of values is a balanced, sorted set of them. */
  lemma {:induction false} ListToMapping<T(!new)>(t: Tree<T>, xs: seq<T>, less: Less<T>)
    requires IsStrictWeakOrder(less) && Sorted(Values(t), less) && IsAA(t)
    ensures var t' := InsertAll(t, xs, less);
            && IsAA(t') && Sorted(Values(t'), less)
            && (forall y :: y in Values(t') ==> y in Values(t) || y in xs)
            && (forall z :: Find(t', z, less).Some? <==> Find(t, z, less).Some? || Has(xs, z, less))
    decreases |xs|
  {
    if xs != [] {
      var t1 := Insert(t, xs[0], less);
      InsertIsSetInsertion(t, xs[0], less);
      InsertKeepsAA(t, xs[0], less);
      ListToMapping(t1, xs[1..], less);
      var t' := InsertAll(t, xs, less);
      forall z ensures Find(t', z, less).Some? <==> Find(t, z, less).Some? || Has(xs, z, less) {
        FindAfterInsert(t, xs[0], z, less);
        assert Has(xs, z, less) <==> Same(z, xs[0], less) || Has(xs[1..], z, less) by {
          assert forall y :: y in xs <==> y == xs[0] || y in xs[1..];
        }
      }
    }
  }
}
