/** Which ribs marshalled constants and code are: every occurrence of a shared constant is the same rib. */
module CodeGraphs {
  import opened RibGraphs
  import opened Marshalling
  import Counting

  ghost predicate IsDatumOf(p: Source, limit: nat, st: State, r: Ref, d: Datum)
    requires IsSource(p) && limit <= |p.nops| && DatumFits(p, limit, d) && Acyclic(st.g) && Below(r, |st.g|)
    decreases limit, d
  {
    match d
    case Number(n) => r == Int(n)
    case Pair(car, cdr) =>
      r.Rib? && var node := st.g[r.id];
      node.tag == 0 && IsDatumOf(p, limit, st, node.car, car) && IsDatumOf(p, limit, st, node.cdr, cdr)
    case Vector(tag, length, nodes) =>
      r.Rib? && var node := st.g[r.id];
      node.tag == tag && node.car == Int(length) && IsDatumOf(p, limit, st, node.cdr, nodes)
    case Primitive(number) =>
      r.Rib? && var node := st.g[r.id];
      node.tag == Counting.PROCEDURE_TAG && node.car == Int(number) && IsConstant(st, node.cdr, Nil)
    case Routine(body) =>
      r.Rib? && var node := st.g[r.id];
      node.tag == Counting.PROCEDURE_TAG && IsCodeOf(p, limit, st, node.car, body) && IsConstant(st, node.cdr, Nil)
    case _ => IsConstant(st, r, d)
  }

  predicate IsConstant(st: State, r: Ref, d: Datum) {
    d in st.constants && r == Rib(st.constants[d])
  }

  ghost predicate IsCodeOf(p: Source, limit: nat, st: State, r: Ref, c: Code)
    requires IsSource(p) && limit <= |p.nops| && CodeFits(p, limit, c) && Acyclic(st.g) && Below(r, |st.g|)
    decreases limit, c
  {
    match c
    case End => IsConstant(st, r, Nil)
    case Instruction(tag, operand, next) =>
      r.Rib? && !IsConstant(st, r, Nil) && var node := st.g[r.id];
      node.tag == tag && IsDatumOf(p, limit, st, node.car, operand) && IsCodeOf(p, limit, st, node.cdr, next)
    case Conditional(then_, next) =>
      r.Rib? && !IsConstant(st, r, Nil) && var node := st.g[r.id];
      node.tag == Counting.IF_TAG && IsCodeOf(p, limit, st, node.car, then_) && IsCodeOf(p, limit, st, node.cdr, next)
    case Nop(id) =>
      r.Rib? && var node := st.g[r.id];
      node.tag == NOP_TAG && IsCodeOf(p, id, st, node.cdr, p.nops[id])
  }

  // ----- growing -----

  predicate Wider(st: State, st': State) {
    && st.g <= st'.g && (Nil in st'.constants ==> Nil in st.constants)
    && forall d :: d in st.constants ==> d in st'.constants && st'.constants[d] == st.constants[d]
  }

  lemma {:induction false} DatumKept(p: Source, limit: nat, st: State, st': State, r: Ref, d: Datum)
    requires IsSource(p) && limit <= |p.nops| && DatumFits(p, limit, d) && Acyclic(st.g) && Below(r, |st.g|)
    requires Acyclic(st'.g) && Wider(st, st') && IsDatumOf(p, limit, st, r, d)
    ensures IsDatumOf(p, limit, st', r, d)
    decreases limit, d
  {
    match d
    case Pair(car, cdr) =>
      DatumKept(p, limit, st, st', st.g[r.id].car, car);
      DatumKept(p, limit, st, st', st.g[r.id].cdr, cdr);
    case Vector(_, _, nodes) => DatumKept(p, limit, st, st', st.g[r.id].cdr, nodes);
    case Routine(body) => CodeKept(p, limit, st, st', st.g[r.id].car, body);
    case _ =>
  }

  lemma {:induction false} CodeKept(p: Source, limit: nat, st: State, st': State, r: Ref, c: Code)
    requires IsSource(p) && limit <= |p.nops| && CodeFits(p, limit, c) && Acyclic(st.g) && Below(r, |st.g|)
    requires Acyclic(st'.g) && Wider(st, st') && IsCodeOf(p, limit, st, r, c)
    ensures IsCodeOf(p, limit, st', r, c)
    decreases limit, c
  {
    match c
    case End =>
    case Instruction(_, operand, next) =>
      DatumKept(p, limit, st, st', st.g[r.id].car, operand);
      CodeKept(p, limit, st, st', st.g[r.id].cdr, next);
    case Conditional(then_, next) =>
      CodeKept(p, limit, st, st', st.g[r.id].car, then_);
      CodeKept(p, limit, st, st', st.g[r.id].cdr, next);
    case Nop(id) => CodeKept(p, id, st, st', st.g[r.id].cdr, p.nops[id]);
  }

  // ----- constants -----

  // The constant has been made, and nothing else has changed.
  predicate Finds(st: State, m: Marshalled, d: Datum) {
    Wider(st, m.state) && IsConstant(m.state, m.ref, d) && m.state.continuations == st.continuations
  }

  lemma {:induction false} NilFound(st: State)
    requires Nil in st.constants
    ensures Finds(st, MarshalNil(st), Nil)
  {
  }

  lemma {:induction false} TrueFound(st: State)
    requires Nil in st.constants
    ensures Finds(st, MarshalTrue(st), Boolean(true))
  {
    hide MarshalNil;
    NilFound(st);
  }

  lemma {:induction false} FalseFound(st: State)
    requires Nil in st.constants
    ensures Finds(st, MarshalFalse(st), Boolean(false))
  {
    hide MarshalNil, MarshalTrue;
    NilFound(st);
    TrueFound(MarshalNil(st).state);
  }

  lemma {:induction false} CharacterFound(st: State, code: int)
    requires Nil in st.constants
    ensures Finds(st, MarshalCharacter(st, code), Character(code))
  {
    hide MarshalNil;
    NilFound(st);
  }

  lemma {:induction false} NumbersWiden(st: State, xs: seq<int>)
    requires Nil in st.constants
    ensures Wider(st, MarshalNumbers(st, xs).state)
    ensures MarshalNumbers(st, xs).state.continuations == st.continuations
    decreases |xs|
  {
    if xs != [] {
      NumbersWiden(st, xs[1..]);
    } else {
      NilFound(st);
    }
  }

  lemma {:induction false} TextFound(st: State, codes: seq<int>)
    requires Nil in st.constants
    ensures Finds(st, MarshalText(st, codes), Text(codes))
  {
    hide MarshalNumbers;
    NumbersWiden(st, codes);
  }

  lemma {:induction false} SymbolFound(p: Source, st: State, id: nat)
    requires id < |p.names| && Nil in st.constants
    ensures Finds(st, MarshalSymbol(p, st, id), Symbol(id))
  {
    hide MarshalFalse, MarshalText;
    FalseFound(st);
    TextFound(MarshalFalse(st).state, p.names[id]);
  }

  // ----- data and code -----

  /** Nops that are found again stand in front of what they lead to. */
  ghost predicate Remembers(p: Source, st: State)
    requires IsSource(p) && Acyclic(st.g)
  {
    forall id :: id in st.continuations ==>
      && id < |p.nops| && st.continuations[id] < |st.g|
      && IsCodeOf(p, id + 1, st, Rib(st.continuations[id]), Nop(id))
  }

  lemma {:induction false} RemembersLater(p: Source, st: State, st': State)
    requires IsSource(p) && Acyclic(st.g) && Acyclic(st'.g) && Remembers(p, st) && Wider(st, st')
    requires st'.continuations == st.continuations
    ensures Remembers(p, st')
  {
    hide IsCodeOf;
    forall id | id in st'.continuations
      ensures id < |p.nops| && st'.continuations[id] < |st'.g|
              && IsCodeOf(p, id + 1, st', Rib(st'.continuations[id]), Nop(id))
    {
      CodeKept(p, id + 1, st, st', Rib(st.continuations[id]), Nop(id));
    }
  }

  ghost predicate MakesDatum(p: Source, limit: nat, st: State, m: Marshalled, d: Datum)
    requires IsSource(p) && limit <= |p.nops| && DatumFits(p, limit, d)
  {
    && Wider(st, m.state) && Acyclic(m.state.g) && Below(m.ref, |m.state.g|) && Remembers(p, m.state)
    && IsDatumOf(p, limit, m.state, m.ref, d)
  }

  ghost predicate MakesCodeOf(p: Source, limit: nat, st: State, m: Marshalled, c: Code)
    requires IsSource(p) && limit <= |p.nops| && CodeFits(p, limit, c)
  {
    && Wider(st, m.state) && Acyclic(m.state.g) && Below(m.ref, |m.state.g|) && Remembers(p, m.state)
    && IsCodeOf(p, limit, m.state, m.ref, c)
  }

  ghost predicate Ready(p: Source, st: State, k: Counting.Kinds)
    requires IsSource(p)
  {
    Fine(p, st, k) && Acyclic(st.g) && Remembers(p, st)
  }

  lemma {:induction false} FineResult(p: Source, st: State, k: Counting.Kinds, m: Marshalled, k': Counting.Kinds,
                                      t: Tree)
    requires IsSource(p) && Makes(p, st, k, m, k', t)
    ensures Fine(p, m.state, k') && Acyclic(m.state.g) && Below(m.ref, |m.state.g|)
  {
  }

  lemma {:induction false} NilIsOld(p: Source, st: State, k: Counting.Kinds)
    requires IsSource(p) && Fine(p, st, k)
    ensures Nil in st.constants && st.constants[Nil] < |st.g|
  {
  }

  lemma {:induction false} ConstantMakes(p: Source, limit: nat, st: State, m: Marshalled, d: Datum)
    requires IsSource(p) && limit <= |p.nops| && DatumFits(p, limit, d) && Acyclic(st.g) && Remembers(p, st)
    requires Finds(st, m, d) && Acyclic(m.state.g) && Below(m.ref, |m.state.g|) && IsShared(d)
    ensures MakesDatum(p, limit, st, m, d)
  {
    hide Remembers;
    RemembersLater(p, st, m.state);
  }

  lemma {:induction false} DatumIsMade(p: Source, limit: nat, st: State, k: Counting.Kinds, d: Datum)
    requires IsSource(p) && limit <= |p.nops| && DatumFits(p, limit, d) && Ready(p, st, k)
    ensures MakesDatum(p, limit, st, MarshalData(p, limit, st, d), d)
    decreases limit, d, 2
  {
    hide Fine, Remembers, MarshalNil, MarshalTrue, MarshalFalse, MarshalCharacter, MarshalText, MarshalSymbol,
         DatumTree;
    NilIsOld(p, st, k);
    var k' := MarshalsData(p, limit, st, k, d);
    FineResult(p, st, k, MarshalData(p, limit, st, d), k', DatumTree(p, limit, d));
    match d
    case Number(n) =>
    case Nil =>
      NilFound(st);
      ConstantMakes(p, limit, st, MarshalNil(st), d);
    case Boolean(truth) =>
      TrueFound(st);
      FalseFound(st);
      ConstantMakes(p, limit, st, MarshalData(p, limit, st, d), d);
    case Character(code) =>
      CharacterFound(st, code);
      ConstantMakes(p, limit, st, MarshalCharacter(st, code), d);
    case Text(codes) =>
      TextFound(st, codes);
      ConstantMakes(p, limit, st, MarshalText(st, codes), d);
    case Symbol(id) =>
      SymbolFound(p, st, id);
      ConstantMakes(p, limit, st, MarshalSymbol(p, st, id), d);
    case _ => CompoundIsMade(p, limit, st, k, d);
  }

  lemma {:induction false} CompoundIsMade(p: Source, limit: nat, st: State, k: Counting.Kinds, d: Datum)
    requires IsSource(p) && limit <= |p.nops| && DatumFits(p, limit, d) && Ready(p, st, k)
    requires d.Pair? || d.Vector? || d.Primitive? || d.Routine?
    requires var m := MarshalData(p, limit, st, d); Acyclic(m.state.g) && Below(m.ref, |m.state.g|)
    ensures MakesDatum(p, limit, st, MarshalData(p, limit, st, d), d)
    decreases limit, d, 1
  {
    hide Fine, Remembers, MarshalNil;
    var m := MarshalData(p, limit, st, d);
    match d
    case Pair(car, cdr) => PairIsMade(p, limit, st, k, d);
    case Vector(tag, length, nodes) =>
      var x := MarshalData(p, limit, st, nodes);
      DatumIsMade(p, limit, st, k, nodes);
      DatumKept(p, limit, x.state, m.state, x.ref, nodes);
      RemembersLater(p, x.state, m.state);
    case Primitive(number) =>
      NilIsOld(p, st, k);
      NilFound(st);
      RemembersLater(p, st, m.state);
    case Routine(body) => RoutineIsMade(p, limit, st, k, d);
  }

  lemma {:induction false} PairIsMade(p: Source, limit: nat, st: State, k: Counting.Kinds, d: Datum)
    requires IsSource(p) && limit <= |p.nops| && DatumFits(p, limit, d) && Ready(p, st, k) && d.Pair?
    requires var m := MarshalData(p, limit, st, d); Acyclic(m.state.g) && Below(m.ref, |m.state.g|)
    ensures MakesDatum(p, limit, st, MarshalData(p, limit, st, d), d)
    decreases limit, d, 0
  {
    hide Fine, Remembers;
    var m, x := MarshalData(p, limit, st, d), MarshalData(p, limit, st, d.car);
    var k1 := ReadyAfterData(p, limit, st, k, d.car);
    var y := MarshalData(p, limit, x.state, d.cdr);
    DatumIsMade(p, limit, x.state, k1, d.cdr);
    DatumKept(p, limit, x.state, m.state, x.ref, d.car);
    DatumKept(p, limit, y.state, m.state, y.ref, d.cdr);
    RemembersLater(p, y.state, m.state);
  }

  lemma {:induction false} RoutineIsMade(p: Source, limit: nat, st: State, k: Counting.Kinds, d: Datum)
    requires IsSource(p) && limit <= |p.nops| && DatumFits(p, limit, d) && Ready(p, st, k) && d.Routine?
    requires var m := MarshalData(p, limit, st, d); Acyclic(m.state.g) && Below(m.ref, |m.state.g|)
    ensures MakesDatum(p, limit, st, MarshalData(p, limit, st, d), d)
    decreases limit, d, 0
  {
    hide Fine, Remembers, MarshalNil;
    var m, x := MarshalData(p, limit, st, d), MarshalCode(p, limit, st, d.body);
    var k1 := ReadyAfterCode(p, limit, st, k, d.body);
    NilIsOld(p, x.state, k1);
    NilFound(x.state);
    CodeKept(p, limit, x.state, m.state, x.ref, d.body);
    RemembersLater(p, x.state, m.state);
  }

  lemma {:induction false} ReadyAfterData(p: Source, limit: nat, st: State, k: Counting.Kinds, d: Datum)
    returns (k': Counting.Kinds)
    requires IsSource(p) && limit <= |p.nops| && DatumFits(p, limit, d) && Ready(p, st, k)
    ensures MakesDatum(p, limit, st, MarshalData(p, limit, st, d), d)
    ensures Ready(p, MarshalData(p, limit, st, d).state, k')
    decreases limit, d, 3
  {
    hide Fine, Remembers, MarshalData;
    DatumIsMade(p, limit, st, k, d);
    k' := MarshalsData(p, limit, st, k, d);
    FineResult(p, st, k, MarshalData(p, limit, st, d), k', DatumTree(p, limit, d));
  }

  lemma {:induction false} ReadyAfterCode(p: Source, limit: nat, st: State, k: Counting.Kinds, c: Code)
    returns (k': Counting.Kinds)
    requires IsSource(p) && limit <= |p.nops| && CodeFits(p, limit, c) && Ready(p, st, k)
    ensures MakesCodeOf(p, limit, st, MarshalCode(p, limit, st, c), c)
    ensures Ready(p, MarshalCode(p, limit, st, c).state, k')
    decreases limit, c, 2
  {
    hide Fine, Remembers, MarshalCode;
    CodeIsMade(p, limit, st, k, c);
    k' := MarshalsCode(p, limit, st, k, c);
    FineResult(p, st, k, MarshalCode(p, limit, st, c), k', CodeTree(p, limit, c));
  }

  /** Marshalling makes the ribs of code, whatever has been marshalled before. */
  lemma {:induction false} CodeIsMade(p: Source, limit: nat, st: State, k: Counting.Kinds, c: Code)
    requires IsSource(p) && limit <= |p.nops| && CodeFits(p, limit, c) && Ready(p, st, k)
    ensures MakesCodeOf(p, limit, st, MarshalCode(p, limit, st, c), c)
    decreases limit, c, 1
  {
    hide Fine, Remembers, MarshalNil, CodeTree;
    var m := MarshalCode(p, limit, st, c);
    var k' := MarshalsCode(p, limit, st, k, c);
    FineResult(p, st, k, m, k', CodeTree(p, limit, c));
    NilIsOld(p, st, k);
    match c
    case End =>
      NilFound(st);
      RemembersLater(p, st, m.state);
    case Instruction(_, _, _) => InstructionIsMade(p, limit, st, k, c);
    case Conditional(_, _) => ConditionalIsMade(p, limit, st, k, c);
    case Nop(id) => NopIsMade(p, limit, st, k, id);
  }

  lemma {:induction false} InstructionIsMade(p: Source, limit: nat, st: State, k: Counting.Kinds, c: Code)
    requires IsSource(p) && limit <= |p.nops| && CodeFits(p, limit, c) && Ready(p, st, k) && c.Instruction?
    requires var m := MarshalCode(p, limit, st, c); Acyclic(m.state.g) && Below(m.ref, |m.state.g|)
    ensures MakesCodeOf(p, limit, st, MarshalCode(p, limit, st, c), c)
    decreases limit, c, 0
  {
    hide Fine, Remembers;
    var m, x := MarshalCode(p, limit, st, c), MarshalData(p, limit, st, c.operand);
    var k1 := ReadyAfterData(p, limit, st, k, c.operand);
    var y := MarshalCode(p, limit, x.state, c.next);
    var k2 := ReadyAfterCode(p, limit, x.state, k1, c.next);
    NilIsOld(p, y.state, k2);
    DatumKept(p, limit, x.state, m.state, x.ref, c.operand);
    CodeKept(p, limit, y.state, m.state, y.ref, c.next);
    RemembersLater(p, y.state, m.state);
  }

  lemma {:induction false} ConditionalIsMade(p: Source, limit: nat, st: State, k: Counting.Kinds, c: Code)
    requires IsSource(p) && limit <= |p.nops| && CodeFits(p, limit, c) && Ready(p, st, k) && c.Conditional?
    requires var m := MarshalCode(p, limit, st, c); Acyclic(m.state.g) && Below(m.ref, |m.state.g|)
    ensures MakesCodeOf(p, limit, st, MarshalCode(p, limit, st, c), c)
    decreases limit, c, 0
  {
    hide Fine, Remembers;
    var m, x := MarshalCode(p, limit, st, c), MarshalCode(p, limit, st, c.then_);
    var k1 := ReadyAfterCode(p, limit, st, k, c.then_);
    var y := MarshalCode(p, limit, x.state, c.next);
    var k2 := ReadyAfterCode(p, limit, x.state, k1, c.next);
    NilIsOld(p, y.state, k2);
    CodeKept(p, limit, x.state, m.state, x.ref, c.then_);
    CodeKept(p, limit, y.state, m.state, y.ref, c.next);
    RemembersLater(p, y.state, m.state);
  }

  lemma {:induction false} NopIsMade(p: Source, limit: nat, st: State, k: Counting.Kinds, id: nat)
    requires IsSource(p) && limit <= |p.nops| && id < limit && Ready(p, st, k)
    requires var m := MarshalCode(p, limit, st, Nop(id)); Acyclic(m.state.g) && Below(m.ref, |m.state.g|)
    ensures MakesCodeOf(p, limit, st, MarshalCode(p, limit, st, Nop(id)), Nop(id))
    decreases limit, Nop(id), 0
  {
    hide Fine;
    var m := MarshalCode(p, limit, st, Nop(id));
    if id in st.continuations {
      assert IsCodeOf(p, id + 1, st, Rib(st.continuations[id]), Nop(id));
    } else {
      hide Remembers;
      var x := MarshalCode(p, id, st, p.nops[id]);
      CodeIsMade(p, id, st, k, p.nops[id]);
      CodeKept(p, id, x.state, m.state, x.ref, p.nops[id]);
      RemembersNop(p, x.state, m.state, id);
    }
  }

  lemma {:induction false} RemembersNop(p: Source, st: State, st': State, id: nat)
    requires IsSource(p) && Acyclic(st.g) && Acyclic(st'.g) && Remembers(p, st) && Wider(st, st') && id < |p.nops|
    requires id in st'.continuations && st'.continuations == st.continuations[id := st'.continuations[id]]
    requires st'.continuations[id] < |st'.g| && IsCodeOf(p, id + 1, st', Rib(st'.continuations[id]), Nop(id))
    ensures Remembers(p, st')
  {
    hide IsCodeOf;
    forall i | i in st'.continuations
      ensures i < |p.nops| && st'.continuations[i] < |st'.g|
              && IsCodeOf(p, i + 1, st', Rib(st'.continuations[i]), Nop(i))
    {
      if i != id {
        CodeKept(p, i + 1, st, st', Rib(st.continuations[i]), Nop(i));
      }
    }
  }

  // ----- programs -----

  /** The rib of a marshalled program is the code that starts with the false value. */
  lemma {:induction false} ProgramIsMade(p: Source, code: Code)
    requires IsSource(p) && CodeFits(p, |p.nops|, code)
    ensures var m := MarshalProgram(p, code);
            && Acyclic(m.state.g) && Below(m.ref, |m.state.g|)
            && IsCodeOf(p, |p.nops|, m.state, m.ref, Instruction(0, Boolean(false), code))
  {
    hide MarshalNil, MarshalCode, Fine;
    var st, k, c := MarshalNil(EMPTY).state, Counting.Kinds({}, {}, 1), Instruction(0, Boolean(false), code);
    FirstConstant(p);
    FineIsTyped(p, st, k);
    assert st.continuations == map[] by {
      NoNopYet();
    }
    StartsWithNull(p, code);
    CodeIsMade(p, |p.nops|, st, k, c);
  }

  lemma {:induction false} NoNopYet()
    ensures MarshalNil(EMPTY).state.continuations == map[]
  {
  }
}
