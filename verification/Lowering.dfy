/** Generated code, given identities on its nops and symbols for its names, can be marshalled. */
module Lowering {
  import opened Scheme
  import opened CodeGenerator
  import opened Loading
  import opened Globals
  import Machine
  import R = RibGraphs
  import M = Marshalling
  import K = Counting

  /** The constants are numbers, false, null and procedures, and the names have symbols. */
  predicate CanLower(ids: map<Name, nat>, k: Code)
    decreases k, 0
  {
    match k
    case Return => true
    case Push(c, next) => CanLowerConstant(ids, c) && CanLower(ids, next)
    case Get(o, next) => CanLowerOperand(ids, o) && CanLower(ids, next)
    case Set(o, next) => CanLowerOperand(ids, o) && CanLower(ids, next)
    case Branch(b, next) => CanLower(ids, b) && CanLower(ids, next)
    case Call(arity, o, next) =>
      Machine.CALL + arity != R.NOP_TAG && CanLowerOperand(ids, o) && CanLower(ids, next)
    case Nop(next) => CanLower(ids, next)
  }

  predicate CanLowerConstant(ids: map<Name, nat>, c: Constant)
    decreases c, 0
  {
    match c
    case Quoted(l) => l.Datum? ==> l.value.Number?
    case Routine(_, body) => CanLower(ids, body)
  }

  predicate CanLowerOperand(ids: map<Name, nat>, o: Operand) {
    o.Symbol? ==> o.name in ids
  }

  /** Code, and what all nops so far lead to. */
  datatype Lowered<T> = Lowered(it: T, nops: seq<M.Code>)

  function LowerOperand(ids: map<Name, nat>, o: Operand): M.Datum
    requires CanLowerOperand(ids, o)
  {
    match o
    case Index(i) => M.Number(i)
    case Symbol(x) => M.Symbol(ids[x])
  }

  function Lower(ids: map<Name, nat>, k: Code, nops: seq<M.Code>): (r: Lowered<M.Code>)
    requires CanLower(ids, k)
    ensures nops <= r.nops
    decreases k, 0
  {
    match k
    case Return => Lowered(M.End, nops)
    case Push(c, next) =>
      var d := LowerConstant(ids, c, nops);
      var x := Lower(ids, next, d.nops);
      Lowered(M.Instruction(Machine.CONSTANT, d.it, x.it), x.nops)
    case Get(o, next) =>
      var x := Lower(ids, next, nops);
      Lowered(M.Instruction(Machine.GET, LowerOperand(ids, o), x.it), x.nops)
    case Set(o, next) =>
      var x := Lower(ids, next, nops);
      Lowered(M.Instruction(Machine.SET, LowerOperand(ids, o), x.it), x.nops)
    case Branch(b, next) =>
      var y := Lower(ids, b, nops);
      var x := Lower(ids, next, y.nops);
      Lowered(M.Conditional(y.it, x.it), x.nops)
    case Call(arity, o, next) =>
      var x := Lower(ids, next, nops);
      Lowered(M.Instruction(Machine.CALL + arity, LowerOperand(ids, o), x.it), x.nops)
    case Nop(next) =>
      var x := Lower(ids, next, nops);
      Lowered(M.Nop(|x.nops|), x.nops + [x.it])
  }

  function LowerConstant(ids: map<Name, nat>, c: Constant, nops: seq<M.Code>): (r: Lowered<M.Datum>)
    requires CanLowerConstant(ids, c)
    ensures nops <= r.nops
    decreases c, 0
  {
    match c
    case Quoted(False) => Lowered(M.Boolean(false), nops)
    case Quoted(Null) => Lowered(M.Nil, nops)
    case Quoted(Datum(v)) => Lowered(M.Number(v.n), nops)
    case Routine(arity, body) =>
      var x := Lower(ids, body, nops);
      Lowered(M.Routine(M.Instruction(0, M.Number(arity), x.it)), x.nops)
  }

  // ----- what is lowered fits and means the same -----

  lemma {:induction false} FitsMore(p: M.Source, limit: nat, more: nat, c: M.Code)
    requires M.CodeFits(p, limit, c) && limit <= more
    ensures M.CodeFits(p, more, c)
    decreases c
  {
    match c
    case End =>
    case Instruction(_, operand, next) =>
      DatumFitsMore(p, limit, more, operand);
      FitsMore(p, limit, more, next);
    case Conditional(then_, next) =>
      FitsMore(p, limit, more, then_);
      FitsMore(p, limit, more, next);
    case Nop(_) =>
  }

  lemma {:induction false} DatumFitsMore(p: M.Source, limit: nat, more: nat, d: M.Datum)
    requires M.DatumFits(p, limit, d) && limit <= more
    ensures M.DatumFits(p, more, d)
    decreases d
  {
    match d
    case Pair(car, cdr) =>
      DatumFitsMore(p, limit, more, car);
      DatumFitsMore(p, limit, more, cdr);
    case Vector(_, _, nodes) => DatumFitsMore(p, limit, more, nodes);
    case Routine(body) => FitsMore(p, limit, more, body);
    case _ =>
  }

  // The nops from `n` on lead to earlier ones.
  ghost predicate NopsFit(p: M.Source, nops: seq<M.Code>, n: nat) {
    nops <= p.nops && forall i :: n <= i < |nops| ==> M.CodeFits(p, i, nops[i])
  }

  ghost predicate HasAll(p: M.Source, ids: map<Name, nat>) {
    forall x :: x in ids ==> ids[x] < |p.names|
  }

  lemma {:induction false} LowerMeans(p: M.Source, ids: map<Name, nat>, k: Code, nops: seq<M.Code>)
    requires CanLower(ids, k) && HasAll(p, ids) && Lower(ids, k, nops).nops <= p.nops
    ensures var r := Lower(ids, k, nops);
            && Means(p, ids, r.it, k) && M.CodeFits(p, |r.nops|, r.it) && NopsFit(p, r.nops, |nops|)
    decreases k, 1
  {
    hide HasAll;
    match k
    case Return =>
    case Push(c, next) =>
      var d := LowerConstant(ids, c, nops);
      LowerMeans(p, ids, next, d.nops);
      LowerConstantMeans(p, ids, c, nops);
      DatumFitsMore(p, |d.nops|, |Lower(ids, next, d.nops).nops|, d.it);
    case Get(o, next) =>
      LowerMeans(p, ids, next, nops);
      LowerOperandMeans(p, ids, o, |Lower(ids, next, nops).nops|);
    case Set(o, next) =>
      LowerMeans(p, ids, next, nops);
      LowerOperandMeans(p, ids, o, |Lower(ids, next, nops).nops|);
    case Call(_, o, next) =>
      LowerMeans(p, ids, next, nops);
      LowerOperandMeans(p, ids, o, |Lower(ids, next, nops).nops|);
    case Branch(b, next) =>
      var y := Lower(ids, b, nops);
      LowerMeans(p, ids, next, y.nops);
      LowerMeans(p, ids, b, nops);
      FitsMore(p, |y.nops|, |Lower(ids, next, y.nops).nops|, y.it);
    case Nop(next) => LowerMeans(p, ids, next, nops);
  }

  lemma {:induction false} LowerOperandMeans(p: M.Source, ids: map<Name, nat>, o: Operand, limit: nat)
    requires CanLowerOperand(ids, o) && HasAll(p, ids)
    ensures MeansOperand(ids, LowerOperand(ids, o), o) && M.DatumFits(p, limit, LowerOperand(ids, o))
  {
  }

  lemma {:induction false} LowerConstantMeans(p: M.Source, ids: map<Name, nat>, c: Constant, nops: seq<M.Code>)
    requires CanLowerConstant(ids, c) && HasAll(p, ids) && LowerConstant(ids, c, nops).nops <= p.nops
    ensures var r := LowerConstant(ids, c, nops);
            && MeansConstant(p, ids, r.it, c) && M.DatumFits(p, |r.nops|, r.it) && NopsFit(p, r.nops, |nops|)
    decreases c, 1
  {
    hide HasAll;
    match c
    case Quoted(_) =>
    case Routine(arity, body) =>
      var x := Lower(ids, body, nops);
      LowerMeans(p, ids, body, nops);
      assert M.DatumFits(p, |x.nops|, M.Number(arity));
      assert M.CodeFits(p, |x.nops|, M.Instruction(0, M.Number(arity), x.it));
  }

  /** All generated code with such constants and names can be given identities that marshalling takes. */
  lemma {:induction false} EveryCodeLowers(ids: map<Name, nat>, names: seq<seq<int>>, k: Code)
    returns (p: M.Source, c: M.Code)
    requires CanLower(ids, k) && forall x :: x in ids ==> ids[x] < |names|
    ensures M.IsSource(p) && M.CodeFits(p, |p.nops|, c) && Means(p, ids, c, k) && p.names == names
  {
    var r := Lower(ids, k, []);
    p, c := M.Source(r.nops, names), r.it;
    LowerMeans(p, ids, k, []);
  }
}
