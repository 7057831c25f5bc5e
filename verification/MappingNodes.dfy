/** The AA tree of `(stak mapping)` in `prelude.scm` as records that are changed in place. */
module MappingNodes {
  import opened Options
  import M = Mappings

  class Node<T> {
    const value: T
    var level: nat
    var left: Node?<T>
    var right: Node?<T>
    ghost var repr: set<Node<T>>

    constructor (value: T)
      ensures Valid() && repr == {this} && Tree() == M.Node(value, 0, M.Empty, M.Empty)
    {
      this.value := value;
      level, left, right, repr := 0, null, null, {this};
    }

    ghost predicate Valid()
      reads this, repr
      decreases repr
    {
      && this in repr
      && (left != null ==> left in repr && left.repr <= repr && this !in left.repr && left.Valid())
      && (right != null ==> right in repr && right.repr <= repr && this !in right.repr && right.Valid())
      && (left != null && right != null ==> left.repr !! right.repr)
    }

    ghost function Tree(): M.Tree<T>
      requires Valid()
      reads this, repr
      decreases repr
    {
      M.Node(value, level,
             if left == null then M.Empty else left.Tree(), if right == null then M.Empty else right.Tree())
    }
  }

  ghost predicate IsTree<T>(node: Node?<T>)
    reads if node == null then {} else {node}, if node == null then {} else node.repr
  {
    node != null ==> node.Valid()
  }

  ghost function TreeOf<T>(node: Node?<T>): M.Tree<T>
    requires IsTree(node)
    reads if node == null then {} else {node}, if node == null then {} else node.repr
  {
    if node == null then M.Empty else node.Tree()
  }

  ghost function Footprint<T>(node: Node?<T>): set<Node<T>>
    reads if node == null then {} else {node}
  {
    if node == null then {} else node.repr
  }

  method Skew<T>(node: Node<T>) returns (r: Node<T>)
    requires node.Valid()
    modifies node.repr
    ensures r.Valid() && r.repr == old(node.repr) && r.Tree() == M.Skew(old(node.Tree()))
  {
    var left := node.left;
    assert left != null ==> left.Valid();
    if left != null && node.level == left.level {
      ghost var all := node.repr;
      assert left.right != null ==> left.right.Valid() && left.right in left.right.repr;
      assert node.right != null ==> node.right in node.right.repr;
      node.left := left.right;
      node.repr := {node} + Footprint(node.left) + Footprint(node.right);
      assert node.Valid();
      left.right := node;
      left.repr := all;
      r := left;
    } else {
      r := node;
    }
  }

  method Split<T>(node: Node<T>) returns (r: Node<T>)
    requires node.Valid()
    modifies node.repr
    ensures r.Valid() && r.repr == old(node.repr) && r.Tree() == M.Split(old(node.Tree()))
  {
    var right := node.right;
    assert right != null ==> right.Valid() && TreeOf(right.right).Node? == (right.right != null);
    if right != null && right.right != null && node.level == right.right.level {
      ghost var all, shape := node.repr, node.Tree();
      assert shape.right == right.Tree() && shape.right.right == right.right.Tree();
      assert right.left != null ==> right.left.Valid() && right.left in right.left.repr;
      assert node.left != null ==> node.left in node.left.repr;
      node.right := right.left;
      node.repr := {node} + Footprint(node.left) + Footprint(node.right);
      assert node.Valid();
      right.left := node;
      right.level := right.level + 1;
      right.repr := all;
      r := right;
    } else {
      r := node;
    }
  }

  method Balance<T>(node: Node<T>) returns (r: Node<T>)
    requires node.Valid()
    modifies node.repr
    ensures r.Valid() && r.repr == old(node.repr) && r.Tree() == M.Balance(old(node.Tree()))
  {
    r := Skew(node);
    r := Split(r);
  }

  /** A node apart from the trees below it. */
  ghost predicate IsApart<T>(node: Node<T>, left: Node?<T>, right: Node?<T>)
    reads Both(left, right), Footprint(left), Footprint(right)
  {
    && IsTree(left) && IsTree(right)
    && node !in Footprint(left) && node !in Footprint(right) && Footprint(left) !! Footprint(right)
  }

  ghost function Both<T>(left: Node?<T>, right: Node?<T>): set<Node<T>> {
    (if left == null then {} else {left}) + if right == null then {} else {right}
  }

  method SetChildren<T>(node: Node<T>, left: Node?<T>, right: Node?<T>)
    requires IsApart(node, left, right)
    modifies node
    ensures node.Valid() && node.repr == {node} + old(Footprint(left)) + old(Footprint(right))
    ensures node.Tree() == M.Node(node.value, old(node.level), old(TreeOf(left)), old(TreeOf(right)))
  {
    assert left != null ==> left.Valid() && left in left.repr;
    assert right != null ==> right.Valid() && right in right.repr;
    node.left := left;
    node.right := right;
    node.repr := {node} + Footprint(left) + Footprint(right);
  }

  lemma {:induction false} ChildrenAreApart<T>(node: Node<T>)
    requires node.Valid()
    ensures IsApart(node, node.left, node.right)
    ensures Footprint(node.left) <= node.repr && Footprint(node.right) <= node.repr
    ensures node.Tree() == M.Node(node.value, node.level, TreeOf(node.left), TreeOf(node.right))
  {
  }

  method InsertLeft<T>(node: Node<T>, x: T, less: M.Less<T>) returns (r: Node<T>)
    requires node.Valid()
    modifies node.repr
    ensures r.Valid() && fresh(r.repr - old(node.repr))
    ensures var t := old(node.Tree()); r.Tree() == M.Balance(t.(left := M.Insert(t.left, x, less)))
    decreases node.repr, 0
  {
    hide M.Insert, M.Balance;
    ChildrenAreApart(node);
    ghost var shape := TreeOf(node.right);
    var right := node.right;
    var left := Insert(node.left, x, less);
    assert IsTree(right) && TreeOf(right) == shape;
    SetChildren(node, left, right);
    r := Balance(node);
  }

  method InsertRight<T>(node: Node<T>, x: T, less: M.Less<T>) returns (r: Node<T>)
    requires node.Valid()
    modifies node.repr
    ensures r.Valid() && fresh(r.repr - old(node.repr))
    ensures var t := old(node.Tree()); r.Tree() == M.Balance(t.(right := M.Insert(t.right, x, less)))
    decreases node.repr, 0
  {
    hide M.Insert, M.Balance;
    ChildrenAreApart(node);
    ghost var shape := TreeOf(node.left);
    var left := node.left;
    var right := Insert(node.right, x, less);
    assert IsTree(left) && TreeOf(left) == shape;
    SetChildren(node, left, right);
    r := Balance(node);
  }

  /** Inserts below a node, in place; only nodes of the tree are changed. */
  method Insert<T>(node: Node?<T>, x: T, less: M.Less<T>) returns (r: Node<T>)
    requires IsTree(node)
    modifies Footprint(node)
    ensures r.Valid() && fresh(r.repr - old(Footprint(node))) && r.Tree() == M.Insert(old(TreeOf(node)), x, less)
    decreases Footprint(node), 1
  {
    hide M.Balance;
    if node == null {
      r := new Node(x);
    } else if less(x, node.value) {
      r := InsertLeft(node, x, less);
    } else if less(node.value, x) {
      r := InsertRight(node, x, less);
    } else {
      r := node;
    }
  }

  method Find<T>(node: Node?<T>, x: T, less: M.Less<T>) returns (r: Option<T>)
    requires IsTree(node)
    ensures r == M.Find(TreeOf(node), x, less)
    decreases Footprint(node)
  {
    if node == null {
      r := None;
    } else if less(x, node.value) {
      r := Find(node.left, x, less);
    } else if less(node.value, x) {
      r := Find(node.right, x, less);
    } else {
      r := Some(node.value);
    }
  }

  method ListOnto<T>(node: Node?<T>, xs: seq<T>) returns (r: seq<T>)
    requires IsTree(node)
    ensures r == M.ListOnto(TreeOf(node), xs)
    decreases Footprint(node)
  {
    if node == null {
      r := xs;
    } else {
      ChildrenAreApart(node);
      r := ListOnto(node.right, xs);
      r := ListOnto(node.left, [node.value] + r);
    }
  }

  /** A mapping is a sorted, balanced set at any time. */
  class Mapping<T(!new)> {
    var root: Node?<T>
    const less: M.Less<T>

    ghost predicate Valid()
      reads this, if root == null then {} else {root}, if root == null then {} else root.repr
    {
      && IsTree(root) && M.IsStrictWeakOrder(less)
      && M.IsAA(TreeOf(root)) && M.Sorted(M.Values(TreeOf(root)), less)
    }

    ghost function Values(): seq<T>
      requires Valid()
      reads this, if root == null then {} else {root}, if root == null then {} else root.repr
    {
      M.Values(TreeOf(root))
    }

    constructor (less: M.Less<T>)
      requires M.IsStrictWeakOrder(less)
      ensures Valid() && Values() == [] && this.less == less
    {
      root, this.less := null, less;
    }

    method InsertValue(x: T)
      requires Valid()
      modifies this, Footprint(root)
      ensures Valid() && M.Inserted(old(Values()), x, Values(), less)
    {
      hide M.IsAA, M.Sorted, M.Values, M.Insert, M.IsStrictWeakOrder, M.Inserted;
      M.InsertIsSetInsertion(TreeOf(root), x, less);
      M.InsertKeepsAA(TreeOf(root), x, less);
      root := Insert(root, x, less);
    }

    method FindValue(x: T) returns (r: Option<T>)
      requires Valid()
      ensures r.Some? <==> M.Has(Values(), x, less)
      ensures r.Some? ==> r.value in Values() && M.Same(x, r.value, less)
    {
      M.FindIsMembership(TreeOf(root), x, less);
      r := Find(root, x, less);
    }

    /** The values in order, no two of them the same. */
    method ToList() returns (r: seq<T>)
      requires Valid()
      ensures r == Values() && M.Sorted(r, less)
    {
      r := ListOnto(root, []);
      M.ListIsValues(TreeOf(root), []);
    }
  }
}
