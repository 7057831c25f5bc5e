/** Marshalling as it runs: a context that remembers the ribs of constants and of continuations. */
module MarshalContexts {
  import opened RibGraphs
  import opened Marshalling
  import Counting

  class MarshalContext {
    var g: Graph
    var constants: map<Datum, nat>
    var continuations: map<nat, nat>

    constructor ()
      ensures Contents() == EMPTY
    {
      g, constants, continuations := [], map[], map[];
    }

    ghost function Contents(): State
      reads this
    {
      State(g, constants, continuations)
    }

    method MakeRib(car: Ref, cdr: Ref, tag: nat) returns (r: Ref)
      modifies this`g
      ensures Marshalled(r, Contents()) == Make(old(Contents()), Node(car, cdr, tag))
    {
      r := Rib(|g|);
      g := g + [Node(car, cdr, tag)];
    }

    method DefineConstant(d: Datum, car: Ref, cdr: Ref, tag: nat) returns (r: Ref)
      modifies this`g, this`constants
      ensures Marshalled(r, Contents()) == Define(old(Contents()), d, Node(car, cdr, tag))
    {
      r := MakeRib(car, cdr, tag);
      constants := constants[d := r.id];
    }

    method WriteNil() returns (r: Ref)
      modifies this`g, this`constants
      ensures Marshalled(r, Contents()) == MarshalNil(old(Contents()))
    {
      if Nil in constants {
        return Rib(constants[Nil]);
      }
      var pair := MakeRib(Int(0), Int(0), 0);
      r := DefineConstant(Nil, Int(0), pair, Counting.NULL_TAG);
    }

    method WriteTrue() returns (r: Ref)
      modifies this`g, this`constants
      ensures Marshalled(r, Contents()) == MarshalTrue(old(Contents()))
    {
      if Boolean(true) in constants {
        return Rib(constants[Boolean(true)]);
      }
      var nil := WriteNil();
      r := DefineConstant(Boolean(true), Int(0), nil, Counting.BOOLEAN_TAG);
    }

    method WriteFalse() returns (r: Ref)
      modifies this`g, this`constants
      ensures Marshalled(r, Contents()) == MarshalFalse(old(Contents()))
    {
      if Boolean(false) in constants {
        return Rib(constants[Boolean(false)]);
      }
      var nil := WriteNil();
      var yes := WriteTrue();
      r := DefineConstant(Boolean(false), nil, yes, Counting.BOOLEAN_TAG);
    }

    method WriteCharacter(code: int) returns (r: Ref)
      modifies this`g, this`constants
      ensures Marshalled(r, Contents()) == MarshalCharacter(old(Contents()), code)
    {
      if Character(code) in constants {
        return Rib(constants[Character(code)]);
      }
      var nil := WriteNil();
      r := DefineConstant(Character(code), Int(code), nil, Counting.CHARACTER_TAG);
    }

    method WriteNumbers(xs: seq<int>) returns (r: Ref)
      modifies this`g, this`constants
      ensures Marshalled(r, Contents()) == MarshalNumbers(old(Contents()), xs)
      decreases |xs|
    {
      if xs == [] {
        r := WriteNil();
      } else {
        var rest := WriteNumbers(xs[1..]);
        r := MakeRib(Int(xs[0]), rest, 0);
      }
    }

    method WriteText(codes: seq<int>) returns (r: Ref)
      modifies this`g, this`constants
      ensures Marshalled(r, Contents()) == MarshalText(old(Contents()), codes)
    {
      if Text(codes) in constants {
        return Rib(constants[Text(codes)]);
      }
      var list := WriteNumbers(codes);
      r := DefineConstant(Text(codes), Int(|codes|), list, Counting.STRING_TAG);
    }

    method WriteSymbol(p: Source, id: nat) returns (r: Ref)
      requires id < |p.names|
      modifies this`g, this`constants
      ensures Marshalled(r, Contents()) == MarshalSymbol(p, old(Contents()), id)
    {
      if Symbol(id) in constants {
        return Rib(constants[Symbol(id)]);
      }
      var no := WriteFalse();
      var name := WriteText(p.names[id]);
      r := DefineConstant(Symbol(id), no, name, Counting.SYMBOL_TAG);
    }

    method WriteData(p: Source, limit: nat, d: Datum) returns (r: Ref)
      requires IsSource(p) && limit <= |p.nops| && DatumFits(p, limit, d)
      modifies this
      ensures Marshalled(r, Contents()) == MarshalData(p, limit, old(Contents()), d)
      decreases limit, d
    {
      match d
      case Number(n) => r := Int(n);
      case Nil => r := WriteNil();
      case Boolean(truth) =>
        if truth {
          r := WriteTrue();
        } else {
          r := WriteFalse();
        }
      case Character(code) => r := WriteCharacter(code);
      case Text(codes) => r := WriteText(codes);
      case Symbol(id) => r := WriteSymbol(p, id);
      case Pair(car, cdr) =>
        var x := WriteData(p, limit, car);
        var y := WriteData(p, limit, cdr);
        r := MakeRib(x, y, 0);
      case Vector(tag, length, nodes) =>
        var x := WriteData(p, limit, nodes);
        r := MakeRib(Int(length), x, tag);
      case Primitive(number) =>
        var nil := WriteNil();
        r := MakeRib(Int(number), nil, Counting.PROCEDURE_TAG);
      case Routine(body) =>
        var code := WriteCode(p, limit, body);
        var nil := WriteNil();
        r := MakeRib(code, nil, Counting.PROCEDURE_TAG);
    }

    method WriteCode(p: Source, limit: nat, c: Code) returns (r: Ref)
      requires IsSource(p) && limit <= |p.nops| && CodeFits(p, limit, c)
      modifies this
      ensures Marshalled(r, Contents()) == MarshalCode(p, limit, old(Contents()), c)
      decreases limit, c
    {
      match c
      case End => r := WriteNil();
      case Instruction(tag, operand, next) =>
        var x := WriteData(p, limit, operand);
        var y := WriteCode(p, limit, next);
        r := MakeRib(x, y, tag);
      case Conditional(then_, next) =>
        var x := WriteCode(p, limit, then_);
        var y := WriteCode(p, limit, next);
        r := MakeRib(x, y, Counting.IF_TAG);
      case Nop(id) =>
        if id in continuations {
          return Rib(continuations[id]);
        }
        var x := WriteCode(p, id, p.nops[id]);
        r := MakeRib(Int(0), x, NOP_TAG);
        continuations := continuations[id := r.id];
    }
  }
}
