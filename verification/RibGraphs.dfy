/** Finite graphs of ribs, as the compiler hands them to the encoder, and the trees they stand for. */
module RibGraphs {

  /** A number, or the rib with a given identity. */
  datatype Ref = Int(n: int) | Rib(id: nat)

  datatype Node = Node(car: Ref, cdr: Ref, tag: nat)

  type Graph = seq<Node>

  const NOP_TAG: nat := 65535

  predicate Below(r: Ref, i: nat) {
    r.Rib? ==> r.id < i
  }

  /** Ribs refer to earlier ribs only. */
  ghost predicate Acyclic(g: Graph) {
    forall i :: 0 <= i < |g| ==> Below(g[i].car, i) && Below(g[i].cdr, i)
  }

  predicate IsNop(g: Graph, r: Ref)
    requires Below(r, |g|)
  {
    r.Rib? && g[r.id].tag == NOP_TAG
  }

  /** What a chain of nops leads to. */
  function Strip(g: Graph, r: Ref): (s: Ref)
    requires Acyclic(g) && Below(r, |g|)
    ensures Below(s, |g|) && !IsNop(g, s)
    ensures r.Rib? && s.Rib? ==> s.id <= r.id && (IsNop(g, r) ==> s.id < r.id)
    ensures r.Int? ==> s == r
    decreases if r.Rib? then r.id + 1 else 0
  {
    if IsNop(g, r) then Strip(g, g[r.id].cdr) else r
  }

  /** A nop stands in front of code, and code is ribs. */
  ghost predicate NopsLeadToRibs(g: Graph)
    requires Acyclic(g)
  {
    forall i :: 0 <= i < |g| ==> Strip(g, Rib(i)).Rib?
  }

  datatype Tree = Leaf(n: int) | Branch(car: Tree, cdr: Tree, tag: nat)

  /** The tree a reference stands for, nops stripped. */
  function TreeOf(g: Graph, r: Ref): Tree
    requires Acyclic(g) && Below(r, |g|) && NopsLeadToRibs(g)
    decreases if r.Rib? then r.id + 1 else 0
  {
    match r
    case Int(n) => Leaf(n)
    case Rib(i) =>
      var node := g[Strip(g, r).id];
      Branch(TreeOf(g, node.car), TreeOf(g, node.cdr), node.tag)
  }

  /** The tree of a graph without nops. */
  function Unfold(g: Graph, r: Ref): Tree
    requires Acyclic(g) && Below(r, |g|)
    decreases if r.Rib? then r.id + 1 else 0
  {
    match r
    case Int(n) => Leaf(n)
    case Rib(i) => Branch(Unfold(g, g[i].car), Unfold(g, g[i].cdr), g[i].tag)
  }

  /** Later ribs do not change the tree of an earlier one. */
  lemma {:induction false} UnfoldGrows(g: Graph, h: Graph, r: Ref)
    requires Acyclic(g) && Acyclic(h) && g <= h && Below(r, |g|)
    ensures Unfold(h, r) == Unfold(g, r)
    decreases if r.Rib? then r.id + 1 else 0
  {
    if r.Rib? {
      UnfoldGrows(g, h, g[r.id].car);
      UnfoldGrows(g, h, g[r.id].cdr);
    }
  }
}
