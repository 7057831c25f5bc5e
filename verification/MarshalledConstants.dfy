/** Marshalled constants as the library of `prelude.scm` reads them. */
module MarshalledConstants {
  import opened RibGraphs
  import Counting
  import M = Marshalling

  /** What a program sees of a constant. */
  datatype Seen =
    | Integer(n: int)
    | EmptyList
    | Truth(truth: bool)
    | Char(code: int)
    | String(length: int, codes: seq<int>)
    | Symbol(length: int, codes: seq<int>)
    | Cons(car: Seen, cdr: Seen)
    | Vector(tag: nat, length: int, nodes: Seen)
    | Procedure
    | Other

  // A list of numbers.
  function ReadCodes(t: Tree): seq<int> {
    if t.Branch? && t.tag == 0 && t.car.Leaf? then [t.car.n] + ReadCodes(t.cdr) else []
  }

  // The length of a string is its first field, and its characters are the second one.
  function ReadString(t: Tree): (int, seq<int>) {
    if t.Branch? && t.tag == 5 && t.car.Leaf? then (t.car.n, ReadCodes(t.cdr)) else (-1, [])
  }

  /** The tag of a rib tells its type. The false value is the boolean whose first field is null. */
  function Read(t: Tree): Seen {
    match t
    case Leaf(n) => Integer(n)
    case Branch(car, cdr, tag) =>
      if tag == 0 then Cons(Read(car), Read(cdr))
      else if tag == 1 then EmptyList
      else if tag == 2 then Truth(!(car.Branch? && car.tag == 1))
      else if tag == 3 then Procedure
      else if tag == 4 then Symbol(ReadString(cdr).0, ReadString(cdr).1)
      else if tag == 5 then String(ReadString(t).0, ReadString(t).1)
      else if tag == 6 && car.Leaf? then Char(car.n)
      else if (tag == 7 || tag == 8) && car.Leaf? then Vector(tag, car.n, Read(cdr))
      else Other
  }

  /** What it should see. */
  function Shows(p: M.Source, limit: nat, d: M.Datum): Seen
    requires M.DatumFits(p, limit, d)
  {
    match d
    case Number(n) => Integer(n)
    case Nil => EmptyList
    case Boolean(truth) => Truth(truth)
    case Character(code) => Char(code)
    case Text(codes) => String(|codes|, codes)
    case Symbol(id) => Symbol(|p.names[id]|, p.names[id])
    case Pair(car, cdr) => Cons(Shows(p, limit, car), Shows(p, limit, cdr))
    case Vector(tag, length, nodes) => Vector(tag, length, Shows(p, limit, nodes))
    case Primitive(_) => Procedure
    case Routine(_) => Procedure
  }

  lemma {:induction false} CodesAreRead(codes: seq<int>)
    ensures ReadCodes(M.ListTree(codes)) == codes
  {
    if codes != [] {
      CodesAreRead(codes[1..]);
    }
  }

  lemma {:induction false} TreeIsRead(p: M.Source, limit: nat, d: M.Datum)
    requires M.IsSource(p) && limit <= |p.nops| && M.DatumFits(p, limit, d)
    ensures Read(M.DatumTree(p, limit, d)) == Shows(p, limit, d)
    decreases d
  {
    match d
    case Text(codes) => CodesAreRead(codes);
    case Symbol(id) => CodesAreRead(p.names[id]);
    case Pair(car, cdr) =>
      TreeIsRead(p, limit, car);
      TreeIsRead(p, limit, cdr);
    case Vector(_, _, nodes) => TreeIsRead(p, limit, nodes);
    case _ =>
  }

  /** The ribs that marshalling makes of a constant, or finds again, show the constant. */
  lemma {:induction false} MarshalledIsRead(p: M.Source, limit: nat, st: M.State, k: Counting.Kinds, d: M.Datum)
    requires M.IsSource(p) && M.Fine(p, st, k) && limit <= |p.nops| && M.DatumFits(p, limit, d)
    ensures var m := M.MarshalData(p, limit, st, d);
            && Acyclic(m.state.g) && NopsLeadToRibs(m.state.g) && Below(m.ref, |m.state.g|)
            && Read(TreeOf(m.state.g, m.ref)) == Shows(p, limit, d)
  {
    hide Read, M.MarshalData, M.Fine;
    var k' := M.MarshalsData(p, limit, st, k, d);
    M.FineIsTyped(p, M.MarshalData(p, limit, st, d).state, k');
    TreeIsRead(p, limit, d);
  }
}
