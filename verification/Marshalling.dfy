/** Marshalling in `compile.scm`: constants and code become the ribs that the encoder takes. */
module Marshalling {
  import opened RibGraphs
  import Counting
  import Encoding

  /** The constants of programs. A vector comes as its length and its nodes, and a procedure has no environment. */
  datatype Datum =
    | Number(n: int)
    | Nil
    | Boolean(truth: bool)
    | Character(code: int)
    | Text(codes: seq<int>)
    | Symbol(id: nat)
    | Pair(car: Datum, cdr: Datum)
    | Vector(tag: nat, length: int, nodes: Datum)
    | Primitive(number: int)
    | Routine(body: Code)

  /** Code as the code generator makes it. A nop has an identity, since the same one stands in front of what
      both branches of a conditional go on with. */
  datatype Code =
    | End
    | Instruction(tag: nat, operand: Datum, next: Code)
    | Conditional(then_: Code, next: Code)
    | Nop(id: nat)

  /** What each nop leads to, and the name that is written for each symbol. */
  datatype Source = Source(nops: seq<Code>, names: seq<seq<int>>)

  const VECTOR_TAG: nat := 7
  const BYTEVECTOR_TAG: nat := 8

  /** Symbols have names, and nops lead to code with earlier nops only. */
  predicate DatumFits(p: Source, limit: nat, d: Datum) {
    match d
    case Symbol(id) => id < |p.names|
    case Pair(car, cdr) => DatumFits(p, limit, car) && DatumFits(p, limit, cdr)
    case Vector(tag, _, nodes) =>
      (tag == VECTOR_TAG || tag == BYTEVECTOR_TAG) && (nodes.Nil? || nodes.Pair?) && DatumFits(p, limit, nodes)
    case Routine(body) => CodeFits(p, limit, body)
    case _ => true
  }

  predicate CodeFits(p: Source, limit: nat, c: Code) {
    match c
    case End => true
    case Instruction(tag, operand, next) =>
      tag != Counting.IF_TAG && tag != NOP_TAG && DatumFits(p, limit, operand) && CodeFits(p, limit, next)
    case Conditional(then_, next) => CodeFits(p, limit, then_) && CodeFits(p, limit, next)
    case Nop(id) => id < limit
  }

  ghost predicate IsSource(p: Source) {
    forall i :: 0 <= i < |p.nops| ==> CodeFits(p, i, p.nops[i])
  }

  // ----- marshalling -----

  /** The ribs made so far, and those of constants and of nops that must be found again. */
  datatype State = State(g: Graph, constants: map<Datum, nat>, continuations: map<nat, nat>)

  datatype Marshalled = Marshalled(ref: Ref, state: State)

  const EMPTY := State([], map[], map[])

  function Make(st: State, node: Node): Marshalled {
    Marshalled(Rib(|st.g|), st.(g := st.g + [node]))
  }

  function Define(st: State, d: Datum, node: Node): Marshalled {
    Marshalled(Rib(|st.g|), st.(g := st.g + [node], constants := st.constants[d := |st.g|]))
  }

  function MarshalNil(st: State): Marshalled {
    if Nil in st.constants then Marshalled(Rib(st.constants[Nil]), st)
    else
      var pair := Make(st, Node(Int(0), Int(0), 0));
      Define(pair.state, Nil, Node(Int(0), pair.ref, Counting.NULL_TAG))
  }

  function MarshalTrue(st: State): Marshalled {
    if Boolean(true) in st.constants then Marshalled(Rib(st.constants[Boolean(true)]), st)
    else
      var nil := MarshalNil(st);
      Define(nil.state, Boolean(true), Node(Int(0), nil.ref, Counting.BOOLEAN_TAG))
  }

  function MarshalFalse(st: State): Marshalled {
    if Boolean(false) in st.constants then Marshalled(Rib(st.constants[Boolean(false)]), st)
    else
      var nil := MarshalNil(st);
      var yes := MarshalTrue(nil.state);
      Define(yes.state, Boolean(false), Node(nil.ref, yes.ref, Counting.BOOLEAN_TAG))
  }

  function MarshalCharacter(st: State, code: int): Marshalled {
    if Character(code) in st.constants then Marshalled(Rib(st.constants[Character(code)]), st)
    else
      var nil := MarshalNil(st);
      Define(nil.state, Character(code), Node(Int(code), nil.ref, Counting.CHARACTER_TAG))
  }

  function MarshalNumbers(st: State, xs: seq<int>): Marshalled {
    if xs == [] then MarshalNil(st)
    else
      var rest := MarshalNumbers(st, xs[1..]);
      Make(rest.state, Node(Int(xs[0]), rest.ref, 0))
  }

  function MarshalText(st: State, codes: seq<int>): Marshalled {
    if Text(codes) in st.constants then Marshalled(Rib(st.constants[Text(codes)]), st)
    else
      var list := MarshalNumbers(st, codes);
      Define(list.state, Text(codes), Node(Int(|codes|), list.ref, Counting.STRING_TAG))
  }

  function MarshalSymbol(p: Source, st: State, id: nat): Marshalled
    requires id < |p.names|
  {
    if Symbol(id) in st.constants then Marshalled(Rib(st.constants[Symbol(id)]), st)
    else
      var no := MarshalFalse(st);
      var name := MarshalText(no.state, p.names[id]);
      Define(name.state, Symbol(id), Node(no.ref, name.ref, Counting.SYMBOL_TAG))
  }

  /** Every pair, vector and procedure is made anew. */
  function MarshalData(p: Source, limit: nat, st: State, d: Datum): Marshalled
    requires IsSource(p) && limit <= |p.nops| && DatumFits(p, limit, d)
    decreases limit, d
  {
    match d
    case Number(n) => Marshalled(Int(n), st)
    case Nil => MarshalNil(st)
    case Boolean(truth) => if truth then MarshalTrue(st) else MarshalFalse(st)
    case Character(code) => MarshalCharacter(st, code)
    case Text(codes) => MarshalText(st, codes)
    case Symbol(id) => MarshalSymbol(p, st, id)
    case Pair(car, cdr) =>
      var x := MarshalData(p, limit, st, car);
      var y := MarshalData(p, limit, x.state, cdr);
      Make(y.state, Node(x.ref, y.ref, 0))
    case Vector(tag, length, nodes) =>
      var x := MarshalData(p, limit, st, nodes);
      Make(x.state, Node(Int(length), x.ref, tag))
    case Primitive(number) =>
      var nil := MarshalNil(st);
      Make(nil.state, Node(Int(number), nil.ref, Counting.PROCEDURE_TAG))
    case Routine(body) =>
      var code := MarshalCode(p, limit, st, body);
      var nil := MarshalNil(code.state);
      Make(nil.state, Node(code.ref, nil.ref, Counting.PROCEDURE_TAG))
  }

  /** Every instruction is made anew, except that a nop and what it leads to is made once. */
  function MarshalCode(p: Source, limit: nat, st: State, c: Code): Marshalled
    requires IsSource(p) && limit <= |p.nops| && CodeFits(p, limit, c)
    decreases limit, c
  {
    match c
    case End => MarshalNil(st)
    case Instruction(tag, operand, next) =>
      var x := MarshalData(p, limit, st, operand);
      var y := MarshalCode(p, limit, x.state, next);
      Make(y.state, Node(x.ref, y.ref, tag))
    case Conditional(then_, next) =>
      var x := MarshalCode(p, limit, st, then_);
      var y := MarshalCode(p, limit, x.state, next);
      Make(y.state, Node(x.ref, y.ref, Counting.IF_TAG))
    case Nop(id) =>
      if id in st.continuations then Marshalled(Rib(st.continuations[id]), st)
      else
        var x := MarshalCode(p, id, st, p.nops[id]);
        var nop := Make(x.state, Node(Int(0), x.ref, NOP_TAG));
        Marshalled(nop.ref, nop.state.(continuations := nop.state.continuations[id := nop.ref.id]))
  }

  /** A program is a pair of the false value and its code. */
  function MarshalProgram(p: Source, code: Code): Marshalled
    requires IsSource(p) && CodeFits(p, |p.nops|, code)
  {
    MarshalCode(p, |p.nops|, EMPTY, Instruction(0, Boolean(false), code))
  }

  // ----- what constants and code mean -----

  function NilTree(): Tree {
    Branch(Leaf(0), Branch(Leaf(0), Leaf(0), 0), Counting.NULL_TAG)
  }

  function TrueTree(): Tree {
    Branch(Leaf(0), NilTree(), Counting.BOOLEAN_TAG)
  }

  function FalseTree(): Tree {
    Branch(NilTree(), TrueTree(), Counting.BOOLEAN_TAG)
  }

  function ListTree(xs: seq<int>): Tree {
    if xs == [] then NilTree() else Branch(Leaf(xs[0]), ListTree(xs[1..]), 0)
  }

  function TextTree(codes: seq<int>): Tree {
    Branch(Leaf(|codes|), ListTree(codes), Counting.STRING_TAG)
  }

  /** The tree that a constant stands for. */
  function DatumTree(p: Source, limit: nat, d: Datum): Tree
    requires IsSource(p) && limit <= |p.nops| && DatumFits(p, limit, d)
    decreases limit, d
  {
    match d
    case Number(n) => Leaf(n)
    case Nil => NilTree()
    case Boolean(truth) => if truth then TrueTree() else FalseTree()
    case Character(code) => Branch(Leaf(code), NilTree(), Counting.CHARACTER_TAG)
    case Text(codes) => TextTree(codes)
    case Symbol(id) => Branch(FalseTree(), TextTree(p.names[id]), Counting.SYMBOL_TAG)
    case Pair(car, cdr) => Branch(DatumTree(p, limit, car), DatumTree(p, limit, cdr), 0)
    case Vector(tag, length, nodes) => Branch(Leaf(length), DatumTree(p, limit, nodes), tag)
    case Primitive(number) => Branch(Leaf(number), NilTree(), Counting.PROCEDURE_TAG)
    case Routine(body) => Branch(CodeTree(p, limit, body), NilTree(), Counting.PROCEDURE_TAG)
  }

  /** The tree of code, nops left out. */
  function CodeTree(p: Source, limit: nat, c: Code): Tree
    requires IsSource(p) && limit <= |p.nops| && CodeFits(p, limit, c)
    decreases limit, c
  {
    match c
    case End => NilTree()
    case Instruction(tag, operand, next) => Branch(DatumTree(p, limit, operand), CodeTree(p, limit, next), tag)
    case Conditional(then_, next) => Branch(CodeTree(p, limit, then_), CodeTree(p, limit, next), Counting.IF_TAG)
    case Nop(id) => CodeTree(p, id, p.nops[id])
  }

  // ----- graphs that grow -----

  lemma {:induction false} StripGrows(g: Graph, h: Graph, r: Ref)
    requires Acyclic(g) && Acyclic(h) && g <= h && Below(r, |g|)
    ensures Strip(h, r) == Strip(g, r) && IsNop(h, r) == IsNop(g, r)
    decreases if r.Rib? then r.id + 1 else 0
  {
    if IsNop(g, r) {
      StripGrows(g, h, g[r.id].cdr);
    }
  }

  lemma {:induction false} TreeGrows(g: Graph, h: Graph, r: Ref)
    requires Acyclic(g) && Acyclic(h) && NopsLeadToRibs(g) && NopsLeadToRibs(h) && g <= h && Below(r, |g|)
    ensures TreeOf(h, r) == TreeOf(g, r)
    decreases if r.Rib? then r.id + 1 else 0
  {
    if r.Rib? {
      StripGrows(g, h, r);
      var node := g[Strip(g, r).id];
      TreeGrows(g, h, node.car);
      TreeGrows(g, h, node.cdr);
    }
  }

  /** New instructions are new ribs. */
  ghost predicate Grows(g: Graph, k: Counting.Kinds, g': Graph, k': Counting.Kinds) {
    && g <= g' && k'.nil == k.nil && k.code <= k'.code
    && forall i :: i in k'.code && i !in k.code ==> i >= |g|
  }

  /** And so are new targets of nops. */
  ghost predicate Extends(g: Graph, k: Counting.Kinds, g': Graph, k': Counting.Kinds) {
    && Grows(g, k, g', k') && k.targets <= k'.targets
    && forall i :: i in k'.targets && i !in k.targets ==> i >= |g|
  }

  lemma {:induction false} RefKept(g: Graph, k: Counting.Kinds, g': Graph, k': Counting.Kinds, r: Ref)
    requires Counting.Typed(g, k) && Counting.Typed(g', k') && Extends(g, k, g', k') && Below(r, |g|)
    ensures Counting.IsData(g, k, r) ==> Counting.IsData(g', k', r)
    ensures Counting.IsCode(g, k, r) ==> Counting.IsCode(g', k', r)
    ensures TreeOf(g', r) == TreeOf(g, r)
  {
    TreeGrows(g, g', r);
  }

  lemma {:induction false} NodeKept(g: Graph, k: Counting.Kinds, g': Graph, k': Counting.Kinds, i: nat)
    requires Acyclic(g) && Acyclic(g') && g <= g' && i < |g| && Counting.IsTypedNode(g, k, i)
    requires k'.nil == k.nil && k.code <= k'.code && k.targets <= k'.targets
    requires forall j :: j in k'.code && j !in k.code ==> j > i
    requires forall j :: j in k'.targets && j !in k.targets ==> j >= i
    ensures Counting.IsTypedNode(g', k', i)
  {
    StripGrows(g, g', Rib(i));
  }

  lemma {:induction false} StripsToRibs(g: Graph, node: Node)
    requires Acyclic(g) && NopsLeadToRibs(g) && Below(node.car, |g|) && Below(node.cdr, |g|)
    requires node.tag == NOP_TAG ==> node.cdr.Rib?
    ensures Acyclic(g + [node]) && NopsLeadToRibs(g + [node])
    ensures Strip(g + [node], Rib(|g|)) == if node.tag == NOP_TAG then Strip(g, node.cdr) else Rib(|g|)
  {
    var h := g + [node];
    assert node.tag == NOP_TAG ==> Strip(g, Rib(node.cdr.id)).Rib?;
    StripGrows(g, h, node.cdr);
    assert Strip(h, Rib(|g|)) == if node.tag == NOP_TAG then Strip(h, node.cdr) else Rib(|g|);
    forall i | 0 <= i < |h| ensures Strip(h, Rib(i)).Rib? {
      if i < |g| {
        StripGrows(g, h, Rib(i));
      }
    }
  }

  /** A rib of data keeps a graph well typed. */
  lemma {:induction false} DataMade(g: Graph, k: Counting.Kinds, node: Node)
    requires Counting.Typed(g, k) && Below(node.car, |g|) && Below(node.cdr, |g|) && node.tag != NOP_TAG
    requires if node.tag == Counting.PROCEDURE_TAG then Counting.IsCode(g, k, node.car)
             else Counting.IsData(g, k, node.car)
    requires Counting.IsData(g, k, node.cdr) && forall i :: i in k.code ==> i < |g|
    ensures Counting.Typed(g + [node], k)
  {
    var h := g + [node];
    StripsToRibs(g, node);
    forall i | 0 <= i < |h| ensures Counting.IsTypedNode(h, k, i) {
      if i < |g| {
        NodeKept(g, k, h, k, i);
      }
    }
  }

  /** So does an instruction. */
  lemma {:induction false} CodeMade(g: Graph, k: Counting.Kinds, node: Node)
    requires Counting.Typed(g, k) && Below(node.car, |g|) && Below(node.cdr, |g|) && node.tag != NOP_TAG
    requires if node.tag == Counting.IF_TAG then Counting.IsCode(g, k, node.car) else Counting.IsData(g, k, node.car)
    requires Counting.IsCode(g, k, node.cdr) && forall i :: i in k.code ==> i < |g|
    ensures Counting.Typed(g + [node], k.(code := k.code + {|g|}))
  {
    var h, k' := g + [node], k.(code := k.code + {|g|});
    StripsToRibs(g, node);
    forall i | 0 <= i < |h| ensures Counting.IsTypedNode(h, k', i) {
      if i < |g| {
        NodeKept(g, k, h, k', i);
      }
    }
  }

  // The kinds of ribs when a nop stands in front of `r`.
  function Targeted(g: Graph, k: Counting.Kinds, r: Ref): Counting.Kinds
    requires Below(r, |g|)
  {
    if r.Rib? && r.id != k.nil && !IsNop(g, r) then k.(targets := k.targets + {r.id}) else k
  }

  /** So does a nop in front of the instruction that was made last, which nothing else leads to yet. */
  lemma {:induction false} NopMade(g: Graph, k: Counting.Kinds, r: Ref)
    requires Counting.Typed(g, k) && r.Rib? && Below(r, |g|) && Counting.IsCode(g, k, r)
    requires r.id == k.nil || IsNop(g, r) || r.id == |g| - 1
    requires forall i :: i in k.code ==> i < |g|
    ensures Counting.Typed(g + [Node(Int(0), r, NOP_TAG)], Targeted(g, k, r))
  {
    var node := Node(Int(0), r, NOP_TAG);
    var h, k' := g + [node], Targeted(g, k, r);
    StripsToRibs(g, node);
    assert Counting.IsTypedNode(g, k, r.id);
    forall i | 0 <= i < |h| ensures Counting.IsTypedNode(h, k', i) {
      if i < |g| {
        NodeKept(g, k, h, k', i);
      }
    }
  }

  // ----- what every step of marshalling keeps -----

  /** Constants of these kinds are made once. */
  predicate IsShared(d: Datum) {
    d.Nil? || d.Boolean? || d.Character? || d.Text? || d.Symbol?
  }

  function SharedTag(d: Datum): nat
    requires IsShared(d)
  {
    match d
    case Nil => Counting.NULL_TAG
    case Boolean(_) => Counting.BOOLEAN_TAG
    case Character(_) => Counting.CHARACTER_TAG
    case Text(_) => Counting.STRING_TAG
    case Symbol(_) => Counting.SYMBOL_TAG
  }

  ghost predicate HasConstant(p: Source, st: State, k: Counting.Kinds, d: Datum)
    requires IsSource(p) && Acyclic(st.g) && NopsLeadToRibs(st.g) && d in st.constants
  {
    var i := st.constants[d];
    && IsShared(d) && DatumFits(p, 0, d) && i < |st.g| && i !in k.code && st.g[i].tag == SharedTag(d)
    && TreeOf(st.g, Rib(i)) == DatumTree(p, 0, d)
  }

  ghost predicate HasNop(p: Source, st: State, id: nat)
    requires IsSource(p) && Acyclic(st.g) && NopsLeadToRibs(st.g) && id in st.continuations
  {
    var i := st.continuations[id];
    && id < |p.nops| && i < |st.g| && st.g[i].tag == NOP_TAG
    && TreeOf(st.g, Rib(i)) == CodeTree(p, id, p.nops[id])
  }

  /** The ribs of shared constants are those of different constants. */
  ghost predicate Unique(st: State, k: Counting.Kinds) {
    && (forall d, e :: d in st.constants && e in st.constants && st.constants[d] == st.constants[e] ==> d == e)
    && forall i :: 0 <= i < |st.g| && i !in k.code && st.g[i].tag != NOP_TAG && Counting.IsSharedTag(st.g[i].tag) ==>
         i in st.constants.Values
  }

  ghost predicate Fine(p: Source, st: State, k: Counting.Kinds)
    requires IsSource(p)
  {
    && Counting.Typed(st.g, k) && Encoding.WellTagged(st.g) && (forall i :: i in k.code ==> i < |st.g|)
    && Nil in st.constants && st.constants[Nil] == k.nil && Unique(st, k)
    && (forall d :: d in st.constants ==> HasConstant(p, st, k, d))
    && (forall id :: id in st.continuations ==> HasNop(p, st, id))
  }

  /** What has been made stands for the tree. */
  ghost predicate Makes(p: Source, st: State, k: Counting.Kinds, m: Marshalled, k': Counting.Kinds, t: Tree)
    requires IsSource(p)
  {
    && Fine(p, m.state, k') && Extends(st.g, k, m.state.g, k')
    && Below(m.ref, |m.state.g|) && TreeOf(m.state.g, m.ref) == t
  }

  ghost predicate MakesData(p: Source, st: State, k: Counting.Kinds, m: Marshalled, k': Counting.Kinds, t: Tree)
    requires IsSource(p)
  {
    Makes(p, st, k, m, k', t) && Counting.IsData(m.state.g, k', m.ref)
  }

  /** An instruction that has just been made is the last rib, so nothing leads to it yet. */
  ghost predicate MakesCode(p: Source, st: State, k: Counting.Kinds, m: Marshalled, k': Counting.Kinds, t: Tree)
    requires IsSource(p)
  {
    && Makes(p, st, k, m, k', t) && Counting.IsCode(m.state.g, k', m.ref) && m.ref.Rib?
    && (m.ref.id == k'.nil || IsNop(m.state.g, m.ref) || |st.g| <= m.ref.id == |m.state.g| - 1)
  }

  lemma {:induction false} ExtendsTwice(g: Graph, k: Counting.Kinds, g': Graph, k': Counting.Kinds, g'': Graph,
                                        k'': Counting.Kinds)
    requires Extends(g, k, g', k') && Extends(g', k', g'', k'')
    ensures Extends(g, k, g'', k'')
  {
  }

  lemma {:induction false} MakesAfter(p: Source, st: State, k: Counting.Kinds, st1: State, k1: Counting.Kinds,
                                      m: Marshalled, k2: Counting.Kinds, t: Tree)
    requires IsSource(p) && Extends(st.g, k, st1.g, k1) && Makes(p, st1, k1, m, k2, t)
    ensures Makes(p, st, k, m, k2, t)
  {
    hide Fine, Extends;
    ExtendsTwice(st.g, k, st1.g, k1, m.state.g, k2);
  }

  lemma {:induction false} FineIsTyped(p: Source, st: State, k: Counting.Kinds)
    requires IsSource(p) && Fine(p, st, k)
    ensures Counting.Typed(st.g, k) && Encoding.WellTagged(st.g) && forall i :: i in k.code ==> i < |st.g|
    ensures Nil in st.constants && st.constants[Nil] == k.nil
  {
  }

  /** What was made before stays what it is. */
  lemma {:induction false} StillMade(p: Source, st: State, k: Counting.Kinds, m: Marshalled, k1: Counting.Kinds,
                                     t: Tree, m2: Marshalled, k2: Counting.Kinds, t2: Tree)
    requires IsSource(p) && Makes(p, st, k, m, k1, t) && Makes(p, m.state, k1, m2, k2, t2)
    ensures TreeOf(m2.state.g, m.ref) == t && Below(m.ref, |m2.state.g|)
    ensures Counting.IsData(m.state.g, k1, m.ref) ==> Counting.IsData(m2.state.g, k2, m.ref)
    ensures Counting.IsCode(m.state.g, k1, m.ref) ==> Counting.IsCode(m2.state.g, k2, m.ref)
    ensures Makes(p, st, k, m2, k2, t2)
  {
    hide Fine;
    FineIsTyped(p, m.state, k1);
    FineIsTyped(p, m2.state, k2);
    RefKept(m.state.g, k1, m2.state.g, k2, m.ref);
    MakesAfter(p, st, k, m.state, k1, m2, k2, t2);
  }

  // ----- one more rib -----

  lemma {:induction false} ConstantKept(p: Source, st: State, k: Counting.Kinds, st': State, k': Counting.Kinds,
                                        d: Datum)
    requires IsSource(p) && Counting.Typed(st.g, k) && Counting.Typed(st'.g, k') && Grows(st.g, k, st'.g, k')
    requires d in st.constants && d in st'.constants && st'.constants[d] == st.constants[d]
    requires HasConstant(p, st, k, d)
    ensures HasConstant(p, st', k', d)
  {
    TreeGrows(st.g, st'.g, Rib(st.constants[d]));
  }

  lemma {:induction false} NopKept(p: Source, st: State, k: Counting.Kinds, st': State, k': Counting.Kinds, id: nat)
    requires IsSource(p) && Counting.Typed(st.g, k) && Counting.Typed(st'.g, k') && Grows(st.g, k, st'.g, k')
    requires id in st.continuations && id in st'.continuations && st'.continuations[id] == st.continuations[id]
    requires HasNop(p, st, id)
    ensures HasNop(p, st', id)
  {
    TreeGrows(st.g, st'.g, Rib(st.continuations[id]));
  }

  lemma {:induction false} FineGrows(p: Source, st: State, k: Counting.Kinds, st': State, k': Counting.Kinds,
                                     node: Node)
    requires IsSource(p) && Fine(p, st, k) && st'.g == st.g + [node] && Counting.Typed(st'.g, k')
    requires Grows(st.g, k, st'.g, k') && k'.code <= k.code + {|st.g|} && (node.cdr.Int? ==> node.tag == 0)
    requires st'.constants == st.constants ||
             exists d: Datum :: && d !in st.constants && st'.constants == st.constants[d := |st.g|]
                                && HasConstant(p, st', k', d)
    requires st'.continuations == st.continuations ||
             exists id: nat :: && id !in st.continuations && st'.continuations == st.continuations[id := |st.g|]
                               && HasNop(p, st', id)
    requires |st.g| in k'.code || node.tag == NOP_TAG || !Counting.IsSharedTag(node.tag)
             || |st.g| in st'.constants.Values
    ensures Fine(p, st', k')
  {
    hide HasConstant, HasNop, Counting.IsTypedNode, Unique;
    forall d | d in st'.constants ensures HasConstant(p, st', k', d) {
      if d in st.constants {
        ConstantKept(p, st, k, st', k', d);
      }
    }
    forall id | id in st'.continuations ensures HasNop(p, st', id) {
      if id in st.continuations {
        NopKept(p, st, k, st', k', id);
      }
    }
    assert forall d :: d in st.constants ==> st.constants[d] < |st.g| by {
      ConstantsInside(p, st, k);
    }
    UniqueGrows(st, k, st', k', node);
  }

  lemma {:induction false} ConstantsInside(p: Source, st: State, k: Counting.Kinds)
    requires IsSource(p) && Fine(p, st, k)
    ensures forall d :: d in st.constants ==> st.constants[d] < |st.g|
  {
    hide Counting.IsTypedNode, HasNop;
    forall d | d in st.constants ensures st.constants[d] < |st.g| {
      assert HasConstant(p, st, k, d);
    }
  }

  lemma {:induction false} UniqueGrows(st: State, k: Counting.Kinds, st': State, k': Counting.Kinds,
                                       node: Node)
    requires Unique(st, k) && (forall d :: d in st.constants ==> st.constants[d] < |st.g|)
    requires st'.g == st.g + [node] && k.code <= k'.code
    requires st'.constants == st.constants ||
             exists d: Datum :: d !in st.constants && st'.constants == st.constants[d := |st.g|]
    requires |st.g| in k'.code || node.tag == NOP_TAG || !Counting.IsSharedTag(node.tag)
             || |st.g| in st'.constants.Values
    ensures Unique(st', k')
  {
    forall i | 0 <= i < |st'.g| && i !in k'.code && st'.g[i].tag != NOP_TAG && Counting.IsSharedTag(st'.g[i].tag)
      ensures i in st'.constants.Values
    {
      if i < |st.g| {
        assert i in st.constants.Values;
        var d :| d in st.constants && st.constants[d] == i;
        assert d in st'.constants && st'.constants[d] == i;
      }
    }
  }

  lemma {:induction false} TreeMade(g: Graph, node: Node)
    requires Acyclic(g) && NopsLeadToRibs(g) && Below(node.car, |g|) && Below(node.cdr, |g|)
    requires Acyclic(g + [node]) && NopsLeadToRibs(g + [node])
    ensures TreeOf(g + [node], Rib(|g|))
            == if node.tag == NOP_TAG then TreeOf(g, node.cdr)
               else Branch(TreeOf(g, node.car), TreeOf(g, node.cdr), node.tag)
  {
    var h := g + [node];
    TreeGrows(g, h, node.car);
    TreeGrows(g, h, node.cdr);
    if node.tag == NOP_TAG {
      assert Strip(h, Rib(|g|)) == Strip(h, node.cdr);
      assert TreeOf(h, Rib(|g|)) == TreeOf(h, node.cdr);
    }
  }

  // The fields of a rib and the trees they stand for.
  ghost predicate HasFields(g: Graph, node: Node, x: Tree, y: Tree)
    requires Acyclic(g) && NopsLeadToRibs(g)
  {
    && Below(node.car, |g|) && Below(node.cdr, |g|) && (node.cdr.Int? ==> node.tag == 0)
    && TreeOf(g, node.car) == x && TreeOf(g, node.cdr) == y
  }

  lemma {:induction false} DataMakes(p: Source, st: State, k: Counting.Kinds, node: Node, x: Tree, y: Tree)
    requires IsSource(p) && Fine(p, st, k) && HasFields(st.g, node, x, y)
    requires node.tag != NOP_TAG && !Counting.IsSharedTag(node.tag)
    requires if node.tag == Counting.PROCEDURE_TAG then Counting.IsCode(st.g, k, node.car)
             else Counting.IsData(st.g, k, node.car)
    requires Counting.IsData(st.g, k, node.cdr)
    ensures MakesData(p, st, k, Make(st, node), k, Branch(x, y, node.tag))
  {
    hide Counting.IsTypedNode, HasConstant, HasNop, Unique;
    DataMade(st.g, k, node);
    TreeMade(st.g, node);
    FineGrows(p, st, k, Make(st, node).state, k, node);
  }

  lemma {:induction false} DataDefines(p: Source, st: State, k: Counting.Kinds, d: Datum, node: Node, x: Tree, y: Tree)
    requires IsSource(p) && Fine(p, st, k) && HasFields(st.g, node, x, y)
    requires IsShared(d) && DatumFits(p, 0, d) && node.tag == SharedTag(d) && d !in st.constants
    requires Counting.IsData(st.g, k, node.car) && Counting.IsData(st.g, k, node.cdr)
    requires DatumTree(p, 0, d) == Branch(x, y, node.tag)
    ensures MakesData(p, st, k, Define(st, d, node), k, Branch(x, y, node.tag))
  {
    hide Counting.IsTypedNode, HasNop, Unique, HasConstant, DatumTree, DatumFits, SharedTag, IsShared;
    var st' := Define(st, d, node).state;
    SharedIsNoNop(d);
    DataMade(st.g, k, node);
    TreeMade(st.g, node);
    ConstantMade(p, st', k, d);
    assert st'.constants[d] in st'.constants.Values;
    FineGrows(p, st, k, st', k, node);
  }

  lemma {:induction false} SharedIsNoNop(d: Datum)
    requires IsShared(d)
    ensures SharedTag(d) != NOP_TAG && SharedTag(d) != Counting.PROCEDURE_TAG
  {
  }

  lemma {:induction false} ConstantMade(p: Source, st: State, k: Counting.Kinds, d: Datum)
    requires IsSource(p) && Counting.Typed(st.g, k) && d in st.constants && IsShared(d) && DatumFits(p, 0, d)
    requires st.constants[d] < |st.g| && st.constants[d] !in k.code && st.g[st.constants[d]].tag == SharedTag(d)
    requires TreeOf(st.g, Rib(st.constants[d])) == DatumTree(p, 0, d)
    ensures HasConstant(p, st, k, d)
  {
  }

  lemma {:induction false} CodeMakes(p: Source, st: State, k: Counting.Kinds, node: Node, x: Tree, y: Tree)
    requires IsSource(p) && Fine(p, st, k) && HasFields(st.g, node, x, y) && node.tag != NOP_TAG
    requires if node.tag == Counting.IF_TAG then Counting.IsCode(st.g, k, node.car)
             else Counting.IsData(st.g, k, node.car)
    requires Counting.IsCode(st.g, k, node.cdr)
    ensures MakesCode(p, st, k, Make(st, node), k.(code := k.code + {|st.g|}), Branch(x, y, node.tag))
  {
    hide HasConstant, HasNop, Unique;
    CodeMade(st.g, k, node);
    TreeMade(st.g, node);
    assert |st.g| !in k.targets;
    hide Counting.IsTypedNode;
    FineGrows(p, st, k, Make(st, node).state, k.(code := k.code + {|st.g|}), node);
  }

  // A nop that is found again.
  function AddNop(st: State, id: nat, r: Ref): Marshalled {
    var nop := Make(st, Node(Int(0), r, NOP_TAG));
    Marshalled(nop.ref, nop.state.(continuations := nop.state.continuations[id := nop.ref.id]))
  }

  lemma {:induction false} NopMakes(p: Source, st0: State, k0: Counting.Kinds, st: State, k: Counting.Kinds, id: nat,
                                    r: Ref)
    returns (k': Counting.Kinds)
    requires IsSource(p) && id < |p.nops| && id !in st.continuations
    requires MakesCode(p, st0, k0, Marshalled(r, st), k, CodeTree(p, id, p.nops[id]))
    ensures MakesCode(p, st0, k0, AddNop(st, id, r), k', CodeTree(p, id, p.nops[id]))
  {
    hide Fine, CodeTree, Counting.Typed;
    k' := Targeted(st.g, k, r);
    FineIsTyped(p, st, k);
    NopFine(p, st, k, id, r);
    var st' := AddNop(st, id, r).state;
    FineIsTyped(p, st', k');
    assert IsNop(st'.g, Rib(|st.g|));
  }

  lemma {:induction false} NopFine(p: Source, st: State, k: Counting.Kinds, id: nat, r: Ref)
    requires IsSource(p) && id < |p.nops| && id !in st.continuations && Fine(p, st, k)
    requires r.Rib? && Below(r, |st.g|) && Counting.IsCode(st.g, k, r)
    requires r.id == k.nil || IsNop(st.g, r) || r.id == |st.g| - 1
    requires TreeOf(st.g, r) == CodeTree(p, id, p.nops[id])
    ensures var st' := AddNop(st, id, r).state;
            && Fine(p, st', Targeted(st.g, k, r)) && Acyclic(st'.g) && NopsLeadToRibs(st'.g)
            && TreeOf(st'.g, Rib(|st.g|)) == CodeTree(p, id, p.nops[id])
  {
    hide HasConstant, Unique, Counting.IsTypedNode, HasNop, CodeTree, TreeOf;
    var st', k' := AddNop(st, id, r).state, Targeted(st.g, k, r);
    NopMade(st.g, k, r);
    NopEntered(p, st, k, st', k', id, r);
    FineGrows(p, st, k, st', k', Node(Int(0), r, NOP_TAG));
  }

  lemma {:induction false} NopEntered(p: Source, st: State, k: Counting.Kinds, st': State, k': Counting.Kinds, id: nat,
                                      r: Ref)
    requires IsSource(p) && id < |p.nops| && st' == AddNop(st, id, r).state
    requires Counting.Typed(st.g, k) && Counting.Typed(st'.g, k') && r.Rib? && Below(r, |st.g|)
    requires TreeOf(st.g, r) == CodeTree(p, id, p.nops[id])
    ensures HasNop(p, st', id) && TreeOf(st'.g, Rib(|st.g|)) == CodeTree(p, id, p.nops[id])
  {
    hide Counting.IsTypedNode;
    TreeMade(st.g, Node(Int(0), r, NOP_TAG));
  }

  // ----- constants -----

  /** A constant that has been made is found again. */
  lemma {:induction false} ConstantFound(p: Source, st: State, k: Counting.Kinds, d: Datum)
    requires IsSource(p) && Fine(p, st, k) && d in st.constants
    ensures DatumFits(p, 0, d)
    ensures MakesData(p, st, k, Marshalled(Rib(st.constants[d]), st), k, DatumTree(p, 0, d))
  {
    assert HasConstant(p, st, k, d);
  }

  lemma {:induction false} NilMakes(p: Source, st: State, k: Counting.Kinds)
    requires IsSource(p) && Fine(p, st, k)
    ensures MakesData(p, st, k, MarshalNil(st), k, NilTree()) && MarshalNil(st) == Marshalled(Rib(k.nil), st)
  {
    ConstantFound(p, st, k, Nil);
  }

  lemma {:induction false} TrueMakes(p: Source, st: State, k: Counting.Kinds)
    requires IsSource(p) && Fine(p, st, k)
    ensures MakesData(p, st, k, MarshalTrue(st), k, TrueTree())
  {
    hide Fine, Extends;
    if Boolean(true) in st.constants {
      ConstantFound(p, st, k, Boolean(true));
    } else {
      FineIsTyped(p, st, k);
      NilMakes(p, st, k);
      DataDefines(p, st, k, Boolean(true), Node(Int(0), Rib(k.nil), Counting.BOOLEAN_TAG), Leaf(0), NilTree());
    }
  }

  lemma {:induction false} FalseMakes(p: Source, st: State, k: Counting.Kinds)
    requires IsSource(p) && Fine(p, st, k)
    ensures MakesData(p, st, k, MarshalFalse(st), k, FalseTree())
  {
    hide Fine, Extends;
    if Boolean(false) in st.constants {
      ConstantFound(p, st, k, Boolean(false));
    } else {
      NilMakes(p, st, k);
      TrueMakes(p, st, k);
      var yes := MarshalTrue(st);
      StillMade(p, st, k, MarshalNil(st), k, NilTree(), yes, k, TrueTree());
      FineIsTyped(p, yes.state, k);
      FalseIsNew(st);
      DataDefines(p, yes.state, k, Boolean(false), Node(Rib(k.nil), yes.ref, Counting.BOOLEAN_TAG), NilTree(),
                  TrueTree());
      MakesAfter(p, st, k, yes.state, k, MarshalFalse(st), k, FalseTree());
    }
  }

  lemma {:induction false} FalseIsNew(st: State)
    requires Boolean(false) !in st.constants && Nil in st.constants
    ensures Boolean(false) !in MarshalTrue(st).state.constants
  {
  }

  lemma {:induction false} CharacterMakes(p: Source, st: State, k: Counting.Kinds, code: int)
    requires IsSource(p) && Fine(p, st, k)
    ensures MakesData(p, st, k, MarshalCharacter(st, code), k, DatumTree(p, 0, Character(code)))
  {
    hide Fine, Extends;
    if Character(code) in st.constants {
      ConstantFound(p, st, k, Character(code));
    } else {
      FineIsTyped(p, st, k);
      NilMakes(p, st, k);
      DataDefines(p, st, k, Character(code), Node(Int(code), Rib(k.nil), Counting.CHARACTER_TAG), Leaf(code),
                  NilTree());
    }
  }

  lemma {:induction false} NumbersMake(p: Source, st: State, k: Counting.Kinds, xs: seq<int>)
    requires IsSource(p) && Fine(p, st, k)
    ensures MakesData(p, st, k, MarshalNumbers(st, xs), k, ListTree(xs))
    ensures MarshalNumbers(st, xs).state.constants == st.constants && MarshalNumbers(st, xs).ref.Rib?
    decreases |xs|
  {
    hide Fine, Extends;
    if xs == [] {
      NilMakes(p, st, k);
    } else {
      NumbersMake(p, st, k, xs[1..]);
      var rest := MarshalNumbers(st, xs[1..]);
      FineIsTyped(p, rest.state, k);
      DataMakes(p, rest.state, k, Node(Int(xs[0]), rest.ref, 0), Leaf(xs[0]), ListTree(xs[1..]));
      MakesAfter(p, st, k, rest.state, k, MarshalNumbers(st, xs), k, ListTree(xs));
    }
  }

  lemma {:induction false} TextMakes(p: Source, st: State, k: Counting.Kinds, codes: seq<int>)
    requires IsSource(p) && Fine(p, st, k)
    ensures MakesData(p, st, k, MarshalText(st, codes), k, TextTree(codes))
    ensures MarshalText(st, codes).ref.Rib?
    ensures forall id :: Symbol(id) in MarshalText(st, codes).state.constants <==> Symbol(id) in st.constants
  {
    hide Fine, Extends, ListTree, MarshalNumbers;
    if Text(codes) in st.constants {
      ConstantFound(p, st, k, Text(codes));
    } else {
      NumbersMake(p, st, k, codes);
      var list := MarshalNumbers(st, codes);
      FineIsTyped(p, list.state, k);
      DataDefines(p, list.state, k, Text(codes), Node(Int(|codes|), list.ref, Counting.STRING_TAG), Leaf(|codes|),
                  ListTree(codes));
      MakesAfter(p, st, k, list.state, k, MarshalText(st, codes), k, TextTree(codes));
    }
  }

  lemma {:induction false} SymbolMakes(p: Source, st: State, k: Counting.Kinds, id: nat)
    requires IsSource(p) && Fine(p, st, k) && id < |p.names|
    ensures MakesData(p, st, k, MarshalSymbol(p, st, id), k, DatumTree(p, 0, Symbol(id)))
  {
    hide Fine, Extends, MarshalText, TextTree;
    if Symbol(id) in st.constants {
      ConstantFound(p, st, k, Symbol(id));
    } else {
      FalseMakes(p, st, k);
      var no := MarshalFalse(st);
      FineIsTyped(p, st, k);
      SymbolIsNew(st, id);
      TextMakes(p, no.state, k, p.names[id]);
      var name := MarshalText(no.state, p.names[id]);
      StillMade(p, st, k, no, k, FalseTree(), name, k, TextTree(p.names[id]));
      FineIsTyped(p, name.state, k);
      DataDefines(p, name.state, k, Symbol(id), Node(no.ref, name.ref, Counting.SYMBOL_TAG), FalseTree(),
                  TextTree(p.names[id]));
      MakesAfter(p, st, k, name.state, k, MarshalSymbol(p, st, id), k, DatumTree(p, 0, Symbol(id)));
    }
  }

  lemma {:induction false} SymbolIsNew(st: State, id: nat)
    requires Nil in st.constants
    ensures Symbol(id) in MarshalFalse(st).state.constants <==> Symbol(id) in st.constants
  {
  }

  // ----- data and code -----

  /** Marshalling makes ribs for the constant's tree and keeps the graph well typed. */
  lemma {:induction false} MarshalsData(p: Source, limit: nat, st: State, k: Counting.Kinds, d: Datum)
    returns (k': Counting.Kinds)
    requires IsSource(p) && limit <= |p.nops| && DatumFits(p, limit, d) && Fine(p, st, k)
    ensures MakesData(p, st, k, MarshalData(p, limit, st, d), k', DatumTree(p, limit, d))
    ensures d.Nil? || d.Pair? ==> MarshalData(p, limit, st, d).ref.Rib?
    decreases limit, d, 1
  {
    hide Fine, Extends, ListTree, MarshalTrue, MarshalFalse, MarshalText, MarshalCharacter, MarshalSymbol, TextTree;
    k' := k;
    FineIsTyped(p, st, k);
    match d
    case Number(n) => ExtendsItself(st.g, k);
    case Nil => NilMakes(p, st, k);
    case Boolean(truth) =>
      TrueMakes(p, st, k);
      FalseMakes(p, st, k);
    case Character(code) => CharacterMakes(p, st, k, code);
    case Text(codes) => TextMakes(p, st, k, codes);
    case Symbol(id) => SymbolMakes(p, st, k, id);
    case Pair(_, _) => k' := PairMakes(p, limit, st, k, d);
    case Vector(tag, length, nodes) =>
      k' := MarshalsData(p, limit, st, k, nodes);
      VectorMakes(p, limit, st, k, d, k');
    case Primitive(number) =>
      NilMakes(p, st, k);
      DataMakes(p, st, k, Node(Int(number), Rib(k.nil), Counting.PROCEDURE_TAG), Leaf(number), NilTree());
    case Routine(body) =>
      k' := MarshalsCode(p, limit, st, k, body);
      RoutineMakes(p, limit, st, k, d, k');
  }

  lemma {:induction false} PairMakes(p: Source, limit: nat, st: State, k: Counting.Kinds, d: Datum)
    returns (k': Counting.Kinds)
    requires IsSource(p) && limit <= |p.nops| && DatumFits(p, limit, d) && Fine(p, st, k) && d.Pair?
    ensures MakesData(p, st, k, MarshalData(p, limit, st, d), k', DatumTree(p, limit, d))
    decreases limit, d, 0
  {
    hide Fine, Extends;
    var k1 := MarshalsData(p, limit, st, k, d.car);
    var x, t := MarshalData(p, limit, st, d.car), DatumTree(p, limit, d.car);
    k' := MarshalsData(p, limit, x.state, k1, d.cdr);
    var y, u := MarshalData(p, limit, x.state, d.cdr), DatumTree(p, limit, d.cdr);
    StillMade(p, st, k, x, k1, t, y, k', u);
    FineIsTyped(p, y.state, k');
    DataMakes(p, y.state, k', Node(x.ref, y.ref, 0), t, u);
    MakesAfter(p, st, k, y.state, k', MarshalData(p, limit, st, d), k', DatumTree(p, limit, d));
  }

  lemma {:induction false} VectorMakes(p: Source, limit: nat, st: State, k: Counting.Kinds, d: Datum,
                                       k': Counting.Kinds)
    requires IsSource(p) && limit <= |p.nops| && DatumFits(p, limit, d) && d.Vector?
    requires var x := MarshalData(p, limit, st, d.nodes);
             MakesData(p, st, k, x, k', DatumTree(p, limit, d.nodes)) && x.ref.Rib?
    ensures MakesData(p, st, k, MarshalData(p, limit, st, d), k', DatumTree(p, limit, d))
  {
    hide Fine, Extends;
    var x := MarshalData(p, limit, st, d.nodes);
    FineIsTyped(p, x.state, k');
    DataMakes(p, x.state, k', Node(Int(d.length), x.ref, d.tag), Leaf(d.length), DatumTree(p, limit, d.nodes));
    MakesAfter(p, st, k, x.state, k', MarshalData(p, limit, st, d), k', DatumTree(p, limit, d));
  }

  lemma {:induction false} RoutineMakes(p: Source, limit: nat, st: State, k: Counting.Kinds, d: Datum,
                                        k': Counting.Kinds)
    requires IsSource(p) && limit <= |p.nops| && DatumFits(p, limit, d) && d.Routine?
    requires MakesCode(p, st, k, MarshalCode(p, limit, st, d.body), k', CodeTree(p, limit, d.body))
    ensures MakesData(p, st, k, MarshalData(p, limit, st, d), k', DatumTree(p, limit, d))
  {
    hide Fine, Extends;
    var x := MarshalCode(p, limit, st, d.body);
    FineIsTyped(p, x.state, k');
    NilMakes(p, x.state, k');
    DataMakes(p, x.state, k', Node(x.ref, Rib(k'.nil), Counting.PROCEDURE_TAG), CodeTree(p, limit, d.body), NilTree());
    MakesAfter(p, st, k, x.state, k', MarshalData(p, limit, st, d), k', DatumTree(p, limit, d));
  }

  lemma {:induction false} ExtendsItself(g: Graph, k: Counting.Kinds)
    ensures Extends(g, k, g, k)
  {
  }

  /** So does marshalling code, where nothing but a nop leads to what a nop leads to. */
  lemma {:induction false} MarshalsCode(p: Source, limit: nat, st: State, k: Counting.Kinds, c: Code)
    returns (k': Counting.Kinds)
    requires IsSource(p) && limit <= |p.nops| && CodeFits(p, limit, c) && Fine(p, st, k)
    ensures MakesCode(p, st, k, MarshalCode(p, limit, st, c), k', CodeTree(p, limit, c))
    decreases limit, c, 1
  {
    hide Fine, Extends;
    match c
    case End =>
      k' := k;
      NilMakes(p, st, k);
      FineIsTyped(p, st, k);
    case Instruction(tag, operand, next) =>
      var k1 := MarshalsData(p, limit, st, k, operand);
      var x := MarshalData(p, limit, st, operand);
      var k2 := MarshalsCode(p, limit, x.state, k1, next);
      var y := MarshalCode(p, limit, x.state, next);
      StillMade(p, st, k, x, k1, DatumTree(p, limit, operand), y, k2, CodeTree(p, limit, next));
      k' := Instructs(p, st, k, y.state, k2, Node(x.ref, y.ref, tag), DatumTree(p, limit, operand),
                      CodeTree(p, limit, next));
    case Conditional(then_, next) =>
      var k1 := MarshalsCode(p, limit, st, k, then_);
      var x := MarshalCode(p, limit, st, then_);
      var k2 := MarshalsCode(p, limit, x.state, k1, next);
      var y := MarshalCode(p, limit, x.state, next);
      StillMade(p, st, k, x, k1, CodeTree(p, limit, then_), y, k2, CodeTree(p, limit, next));
      k' := Instructs(p, st, k, y.state, k2, Node(x.ref, y.ref, Counting.IF_TAG), CodeTree(p, limit, then_),
                      CodeTree(p, limit, next));
    case Nop(id) =>
      if id in st.continuations {
        k' := k;
        NopFound(p, st, k, id);
      } else {
        var k1 := MarshalsCode(p, id, st, k, p.nops[id]);
        var x := MarshalCode(p, id, st, p.nops[id]);
        NopIsNew(p, id, st, p.nops[id], id);
        k' := NopMakes(p, st, k, x.state, k1, id, x.ref);
      }
  }

  /** An instruction goes on with what has been made for its successor. */
  lemma {:induction false} Instructs(p: Source, st0: State, k0: Counting.Kinds, st: State, k: Counting.Kinds,
                                     node: Node, x: Tree, y: Tree)
    returns (k': Counting.Kinds)
    requires IsSource(p) && Makes(p, st0, k0, Marshalled(node.cdr, st), k, y) && node.tag != NOP_TAG && node.cdr.Rib?
    requires Below(node.car, |st.g|) && TreeOf(st.g, node.car) == x && Counting.IsCode(st.g, k, node.cdr)
    requires if node.tag == Counting.IF_TAG then Counting.IsCode(st.g, k, node.car)
             else Counting.IsData(st.g, k, node.car)
    ensures MakesCode(p, st0, k0, Make(st, node), k', Branch(x, y, node.tag))
  {
    hide Fine, Extends;
    FineIsTyped(p, st, k);
    k' := k.(code := k.code + {|st.g|});
    CodeMakes(p, st, k, node, x, y);
    MakesAfter(p, st0, k0, st, k, Make(st, node), k', Branch(x, y, node.tag));
    GraphGrows(st0.g, k0, st.g, k);
  }

  lemma {:induction false} GraphGrows(g: Graph, k: Counting.Kinds, g': Graph, k': Counting.Kinds)
    requires Extends(g, k, g', k')
    ensures |g| <= |g'|
  {
  }

  lemma {:induction false} NopFound(p: Source, st: State, k: Counting.Kinds, id: nat)
    requires IsSource(p) && Fine(p, st, k) && id in st.continuations
    ensures id < |p.nops|
    ensures MakesCode(p, st, k, Marshalled(Rib(st.continuations[id]), st), k, CodeTree(p, id, p.nops[id]))
  {
    assert HasNop(p, st, id);
  }

  /** Marshalling code meets only nops that it leads to. */
  lemma {:induction false} NopIsNew(p: Source, limit: nat, st: State, c: Code, id: nat)
    requires IsSource(p) && limit <= |p.nops| && CodeFits(p, limit, c) && limit <= id && id !in st.continuations
    ensures id !in MarshalCode(p, limit, st, c).state.continuations
    decreases limit, c
  {
    match c
    case End =>
    case Instruction(_, operand, next) =>
      NopIsNewInData(p, limit, st, operand, id);
      NopIsNew(p, limit, MarshalData(p, limit, st, operand).state, next, id);
    case Conditional(then_, next) =>
      NopIsNew(p, limit, st, then_, id);
      NopIsNew(p, limit, MarshalCode(p, limit, st, then_).state, next, id);
    case Nop(i) =>
      if i !in st.continuations {
        NopIsNew(p, i, st, p.nops[i], id);
      }
  }

  lemma {:induction false} NopIsNewInData(p: Source, limit: nat, st: State, d: Datum, id: nat)
    requires IsSource(p) && limit <= |p.nops| && DatumFits(p, limit, d) && limit <= id && id !in st.continuations
    ensures id !in MarshalData(p, limit, st, d).state.continuations
    decreases limit, d
  {
    match d
    case Text(codes) => TextKeepsNops(st, codes);
    case Symbol(i) => TextKeepsNops(MarshalFalse(st).state, p.names[i]);
    case Pair(car, cdr) =>
      NopIsNewInData(p, limit, st, car, id);
      NopIsNewInData(p, limit, MarshalData(p, limit, st, car).state, cdr, id);
    case Vector(_, _, nodes) => NopIsNewInData(p, limit, st, nodes, id);
    case Routine(body) => NopIsNew(p, limit, st, body, id);
    case _ =>
  }

  lemma {:induction false} NumbersKeepNops(st: State, xs: seq<int>)
    ensures MarshalNumbers(st, xs).state.continuations == st.continuations
    decreases |xs|
  {
    if xs != [] {
      NumbersKeepNops(st, xs[1..]);
    }
  }

  lemma {:induction false} TextKeepsNops(st: State, codes: seq<int>)
    ensures MarshalText(st, codes).state.continuations == st.continuations
  {
    NumbersKeepNops(st, codes);
  }

  // ----- programs -----

  // The null value is the first constant to be made.
  lemma {:induction false} FirstConstant(p: Source)
    requires IsSource(p)
    ensures Fine(p, MarshalNil(EMPTY).state, Counting.Kinds({}, {}, 1)) && |MarshalNil(EMPTY).state.g| == 2
  {
    var st, k := MarshalNil(EMPTY).state, Counting.Kinds({}, {}, 1);
    assert st.g == [Node(Int(0), Int(0), 0), Node(Int(0), Rib(0), Counting.NULL_TAG)];
    assert TreeOf(st.g, Rib(0)) == Branch(Leaf(0), Leaf(0), 0);
    assert TreeOf(st.g, Rib(1)) == NilTree();
    assert HasConstant(p, st, k, Nil);
    assert st.constants[Nil] in st.constants.Values;
    assert Counting.IsTypedNode(st.g, k, 0) && Counting.IsTypedNode(st.g, k, 1);
  }

  lemma {:induction false} StartsWithNull(p: Source, code: Code)
    requires IsSource(p) && CodeFits(p, |p.nops|, code)
    ensures MarshalProgram(p, code)
            == MarshalCode(p, |p.nops|, MarshalNil(EMPTY).state, Instruction(0, Boolean(false), code))
  {
    assert MarshalFalse(EMPTY) == MarshalFalse(MarshalNil(EMPTY).state);
    RootIs(p, EMPTY, code);
    RootIs(p, MarshalNil(EMPTY).state, code);
  }

  lemma {:induction false} RootIs(p: Source, st: State, code: Code)
    requires IsSource(p) && CodeFits(p, |p.nops|, code)
    ensures var x := MarshalFalse(st);
            var y := MarshalCode(p, |p.nops|, x.state, code);
            MarshalCode(p, |p.nops|, st, Instruction(0, Boolean(false), code)) == Make(y.state, Node(x.ref, y.ref, 0))
  {
    hide MarshalFalse;
    assert MarshalData(p, |p.nops|, st, Boolean(false)) == MarshalFalse(st);
  }

  /** The null value is found by its tag. */
  lemma {:induction false} NullIsOne(p: Source, st: State, k: Counting.Kinds, i: nat)
    requires IsSource(p) && Fine(p, st, k) && i < |st.g| && i !in k.code && st.g[i].tag == Counting.NULL_TAG
    ensures i == k.nil
  {
    assert i in st.constants.Values;
    var d :| d in st.constants && st.constants[d] == i;
    assert HasConstant(p, st, k, d);
  }

  /** And so is the false value. */
  lemma {:induction false} FalseIsOne(p: Source, st: State, k: Counting.Kinds, i: nat)
    requires IsSource(p) && Fine(p, st, k) && i < |st.g| && i !in k.code && st.g[i].tag == Counting.BOOLEAN_TAG
    requires TreeOf(st.g, Rib(i)) == FalseTree()
    ensures Boolean(false) in st.constants && st.constants[Boolean(false)] == i
  {
    assert i in st.constants.Values;
    var d :| d in st.constants && st.constants[d] == i;
    assert HasConstant(p, st, k, d);
  }

  /** A symbol holds the false value. */
  lemma {:induction false} SymbolHoldsFalse(p: Source, st: State, k: Counting.Kinds, id: nat)
    requires IsSource(p) && Fine(p, st, k) && Symbol(id) in st.constants
    ensures var i := st.constants[Symbol(id)];
            && i < |st.g| && i !in k.code && st.g[i].tag == Counting.SYMBOL_TAG
            && Boolean(false) in st.constants && st.g[i].car == Rib(st.constants[Boolean(false)])
  {
    FineIsTyped(p, st, k);
    assert HasConstant(p, st, k, Symbol(id));
    var i := st.constants[Symbol(id)];
    DataFields(st.g, k, Rib(i));
    DataFields(st.g, k, st.g[i].car);
    FalseIsOne(p, st, k, st.g[i].car.id);
  }

  // A rib of data and the trees of its fields.
  lemma {:induction false} DataFields(g: Graph, k: Counting.Kinds, r: Ref)
    requires Counting.Typed(g, k) && Below(r, |g|) && Counting.IsData(g, k, r) && TreeOf(g, r).Branch?
    ensures r.Rib? && Below(g[r.id].car, |g|) && Below(g[r.id].cdr, |g|) && r.id !in k.code
    ensures TreeOf(g, r) == Branch(TreeOf(g, g[r.id].car), TreeOf(g, g[r.id].cdr), g[r.id].tag)
    ensures g[r.id].tag != Counting.PROCEDURE_TAG ==> Counting.IsData(g, k, g[r.id].car)
    ensures Counting.IsData(g, k, g[r.id].cdr)
  {
    assert Counting.IsTypedNode(g, k, r.id);
  }

  lemma {:induction false} FalseHasNull(p: Source, st: State, k: Counting.Kinds, f: Ref)
    requires IsSource(p) && Fine(p, st, k) && Below(f, |st.g|) && Counting.IsData(st.g, k, f)
    requires TreeOf(st.g, f) == FalseTree()
    ensures f.Rib? && st.g[f.id].tag == Counting.BOOLEAN_TAG && st.g[f.id].car == Rib(k.nil)
    ensures var g := st.g;
            && g[f.id].cdr.Rib? && g[k.nil].tag == Counting.NULL_TAG
            && g[k.nil].car.Int? && g[k.nil].cdr.Rib? && g[k.nil].cdr.id < |g|
            && var pair := g[g[k.nil].cdr.id]; pair.tag == 0 && pair.car.Int? && pair.cdr.Int?
  {
    FineIsTyped(p, st, k);
    hide Fine, TreeOf, Counting.Typed;
    var g := st.g;
    FalseFields(g, k, f);
    var nil := g[f.id].car;
    DataFields(g, k, nil);
    NullIsOne(p, st, k, nil.id);
    DataFields(g, k, g[nil.id].cdr);
    LeafIsInt(g, g[nil.id].car);
    LeafIsInt(g, g[g[nil.id].cdr.id].car);
    LeafIsInt(g, g[g[nil.id].cdr.id].cdr);
  }

  lemma {:induction false} FalseFields(g: Graph, k: Counting.Kinds, f: Ref)
    requires Counting.Typed(g, k) && Below(f, |g|) && Counting.IsData(g, k, f) && TreeOf(g, f) == FalseTree()
    ensures Acyclic(g) && NopsLeadToRibs(g) && f.Rib? && g[f.id].tag == Counting.BOOLEAN_TAG
    ensures Below(g[f.id].car, |g|) && Counting.IsData(g, k, g[f.id].car) && TreeOf(g, g[f.id].car) == NilTree()
    ensures g[f.id].cdr.Rib?
  {
    DataFields(g, k, f);
  }

  lemma {:induction false} LeafIsInt(g: Graph, r: Ref)
    requires Acyclic(g) && NopsLeadToRibs(g) && Below(r, |g|) && TreeOf(g, r).Leaf?
    ensures r.Int?
  {
  }

  /** Whatever the code generator makes, marshalling hands the encoder a well-typed program: an instruction is
      reached through nops or directly, but never both ways. The program stands for the tree of its code, and
      each of its shared constants is one rib. */
  lemma {:induction false} MarshalledIsProgram(p: Source, code: Code) returns (k: Counting.Kinds)
    requires IsSource(p) && CodeFits(p, |p.nops|, code)
    ensures var m := MarshalProgram(p, code);
            && Counting.IsProgram(m.state.g, k, m.ref) && Encoding.WellTagged(m.state.g) && Unique(m.state, k)
            && Fine(p, m.state, k)
            && TreeOf(m.state.g, m.ref) == Branch(FalseTree(), CodeTree(p, |p.nops|, code), 0)
  {
    hide MarshalNil, MarshalCode, CodeTree, Fine;
    var st, k0, c := MarshalNil(EMPTY).state, Counting.Kinds({}, {}, 1), Instruction(0, Boolean(false), code);
    FirstConstant(p);
    StartsWithNull(p, code);
    k := MarshalsCode(p, |p.nops|, st, k0, c);
    var m := MarshalProgram(p, code);
    RootTree(p, code);
    RootIs(p, st, code);
    FineIsTyped(p, m.state, k);
    FineIsUnique(p, m.state, k);
    RootIsProgram(p, m.state, k, m.ref, CodeTree(p, |p.nops|, code));
  }

  lemma {:induction false} FineIsUnique(p: Source, st: State, k: Counting.Kinds)
    requires IsSource(p) && Fine(p, st, k)
    ensures Unique(st, k) && Encoding.WellTagged(st.g)
  {
  }

  lemma {:induction false} RootTree(p: Source, code: Code)
    requires IsSource(p) && CodeFits(p, |p.nops|, code)
    ensures CodeTree(p, |p.nops|, Instruction(0, Boolean(false), code))
            == Branch(FalseTree(), CodeTree(p, |p.nops|, code), 0)
  {
  }

  lemma {:induction false} RootIsProgram(p: Source, st: State, k: Counting.Kinds, root: Ref, t: Tree)
    requires IsSource(p) && Fine(p, st, k) && root.Rib? && root.id == |st.g| - 1 && st.g[root.id].tag == 0
    requires Acyclic(st.g) && NopsLeadToRibs(st.g) && Counting.IsCode(st.g, k, root) && root.id != k.nil
    requires TreeOf(st.g, root) == Branch(FalseTree(), t, 0)
    ensures Counting.IsProgram(st.g, k, root)
  {
    var g := st.g;
    assert Counting.IsTypedNode(g, k, root.id);
    assert Strip(g, root) == root && TreeOf(g, g[root.id].car) == FalseTree();
    FalseHasNull(p, st, k, g[root.id].car);
  }

  /** So the encoder of every marshalled program ends with nothing left over. */
  lemma {:induction false} MarshalledUsesUpCounts(p: Source, code: Code)
    requires IsSource(p) && CodeFits(p, |p.nops|, code)
    ensures var m := MarshalProgram(p, code);
            && Acyclic(m.state.g) && NopsLeadToRibs(m.state.g) && Below(m.ref, |m.state.g|)
            && Counting.HasNull(m.state.g, m.ref)
            && var e := Encoding.Encode(m.state.g, m.ref, Counting.StartContext(m.state.g, m.ref));
               && e.context.dictionary == []
               && forall id :: id in e.context.counts ==> e.context.counts[id] == 0
  {
    hide MarshalProgram;
    var k := MarshalledIsProgram(p, code);
    Counting.EncodingUsesUpCounts(MarshalProgram(p, code).state.g, k, MarshalProgram(p, code).ref);
  }
}
