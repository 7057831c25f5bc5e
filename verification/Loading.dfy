/** Decoded code lies in the heap as generated code expects it. */
module Loading {
  import opened Stores
  import opened Scheme
  import opened CodeGenerator
  import opened Worlds
  import Machine
  import R = RibGraphs
  import M = Marshalling
  import C = CodeGraphs
  import K = Counting
  import E = EndToEnd
  import opened Globals

  // ----- generated code before it is marshalled -----

  /** The code before marshalling is the generated code, with symbols instead of names and with identities on
      nops. The constants are numbers, false, null and procedures. */
  predicate Means(p: M.Source, ids: map<Name, nat>, c: M.Code, k: Code)
    decreases k, 0
  {
    match k
    case Return => c == M.End
    case Push(constant, next) =>
      c.Instruction? && c.tag == Machine.CONSTANT && MeansConstant(p, ids, c.operand, constant)
      && Means(p, ids, c.next, next)
    case Get(operand, next) =>
      c.Instruction? && c.tag == Machine.GET && MeansOperand(ids, c.operand, operand) && Means(p, ids, c.next, next)
    case Set(operand, next) =>
      c.Instruction? && c.tag == Machine.SET && MeansOperand(ids, c.operand, operand) && Means(p, ids, c.next, next)
    case Branch(then_, next) => c.Conditional? && Means(p, ids, c.then_, then_) && Means(p, ids, c.next, next)
    case Call(arity, operand, next) =>
      c.Instruction? && c.tag == Machine.CALL + arity && MeansOperand(ids, c.operand, operand)
      && Means(p, ids, c.next, next)
    case Nop(next) => c.Nop? && c.id < |p.nops| && Means(p, ids, p.nops[c.id], next)
  }

  predicate MeansConstant(p: M.Source, ids: map<Name, nat>, d: M.Datum, constant: Constant)
    decreases constant, 0
  {
    match constant
    case Quoted(False) => d == M.Boolean(false)
    case Quoted(Null) => d == M.Nil
    case Quoted(Datum(v)) => v.Number? && d == M.Number(v.n)
    case Routine(arity, body) =>
      d.Routine? && d.body.Instruction? && d.body.tag == 0 && d.body.operand == M.Number(arity)
      && Means(p, ids, d.body.next, body)
  }

  predicate MeansOperand(ids: map<Name, nat>, d: M.Datum, operand: Operand) {
    match operand
    case Index(i) => d == M.Number(i)
    case Symbol(x) => x in ids && d == M.Symbol(ids[x])
  }

  // ----- the image of a program -----

  /** A marshalled program, and the words of a heap that hold a copy of it. */
  datatype Image = Image(st: M.State, k: K.Kinds, words: seq<Value>, origin: map<nat, nat>, cell: map<nat, nat>)

  ghost predicate IsImage(p: M.Source, im: Image) {
    M.IsSource(p) && M.Fine(p, im.st, im.k) && E.CellsComeFrom(im.origin, im.cell)
  }

  ghost predicate Copied(p: M.Source, im: Image, r: R.Ref, v: Value)
    requires IsImage(p, im)
  {
    && R.Below(r, |im.st.g|)
    && E.IsCopy(im.st.g, im.words, im.origin, K.Shared(im.st.g, im.k), im.cell, r, v)
  }

  predicate Has(im: Image, d: M.Datum) {
    d in im.st.constants && im.st.constants[d] in im.cell
  }

  // The cell of a shared constant.
  function CellOf(im: Image, d: M.Datum): nat
    requires Has(im, d)
  {
    im.cell[im.st.constants[d]]
  }

  // The value of a global variable, which may change.
  ghost predicate IsOpen(im: Image, j: nat) {
    j % 2 == 0 && j + 1 < |im.words| && exists id: nat :: Has(im, M.Symbol(id)) && CellOf(im, M.Symbol(id)) == j
  }

  /** What no longer changes is the image but for the values of symbols. */
  ghost predicate Shows(w: World, im: Image, ids: map<Name, nat>) {
    && (forall j: nat :: j < |im.words| && !IsOpen(im, j) ==> j in w.fixed && w.fixed[j] == im.words[j])
    && Has(im, M.Nil) && w.nil == CellOf(im, M.Nil)
    && Has(im, M.Boolean(false)) && w.no == CellOf(im, M.Boolean(false))
    && forall x :: x in ids && Has(im, M.Symbol(ids[x])) ==>
         x in w.symbols && w.symbols[x] == CellOf(im, M.Symbol(ids[x]))
  }

  // ----- cells of the image -----

  /** An occurrence of a shared constant is its cell. */
  lemma {:induction false} ConstantIsAt(p: M.Source, im: Image, r: R.Ref, v: Value, d: M.Datum)
    requires IsImage(p, im) && Copied(p, im, r, v) && C.IsConstant(im.st, r, d)
    ensures Has(im, d) && v.Pointer? && v.cons.index == CellOf(im, d) && v.cons.index % 2 == 0
    ensures v.cons.index + 1 < |im.words|
  {
    assert M.HasConstant(p, im.st, im.k, d);
  }

  ghost predicate IsSymbol(im: Image, id: nat) {
    exists i: nat :: M.Symbol(i) in im.st.constants && im.st.constants[M.Symbol(i)] == id
  }

  // A cell that has been copied from a rib is no cell of another one.
  lemma {:induction false} NotOpen(p: M.Source, im: Image, i: nat)
    requires IsImage(p, im) && i in im.origin && i % 2 == 0 && !IsSymbol(im, im.origin[i])
    ensures !IsOpen(im, i) && !IsOpen(im, i + 1)
  {
    hide M.Fine;
    forall id: nat | Has(im, M.Symbol(id)) ensures CellOf(im, M.Symbol(id)) != i {
      assert im.origin[CellOf(im, M.Symbol(id))] == im.st.constants[M.Symbol(id)];
      assert IsSymbol(im, im.st.constants[M.Symbol(id)]);
    }
  }

  lemma {:induction false} OtherCell(p: M.Source, im: Image, i: nat, d: M.Datum)
    requires IsImage(p, im) && i in im.origin && Has(im, d) && im.origin[i] != im.st.constants[d]
    ensures i != CellOf(im, d)
  {
  }

  /** The cell of a rib that is neither a nop nor a symbol does not change, and its fields are copies. */
  lemma {:induction false} RibIsAt(p: M.Source, im: Image, w: World, ids: map<Name, nat>, r: R.Ref, v: Value)
    requires IsImage(p, im) && Shows(w, im, ids) && Copied(p, im, r, v) && r.Rib?
    requires im.st.g[r.id].tag != R.NOP_TAG && !IsSymbol(im, r.id)
    ensures v.Pointer? && IsFixed(w, v.cons.index) && v.cons.index + 1 < |im.words| && v.cons.index in im.origin
    ensures im.origin[v.cons.index] == r.id
    ensures w.fixed[v.cons.index] == im.words[v.cons.index]
    ensures w.fixed[v.cons.index + 1] == im.words[v.cons.index + 1]
    ensures im.words[v.cons.index + 1].Tag() == im.st.g[r.id].tag
    ensures Copied(p, im, im.st.g[r.id].car, im.words[v.cons.index])
    ensures Copied(p, im, im.st.g[r.id].cdr, im.words[v.cons.index + 1])
  {
    hide M.Fine, E.IsCopy, K.Shared, E.CellsComeFrom, IsOpen, IsSymbol;
    M.FineIsTyped(p, im.st, im.k);
    CopyAt(im.st.g, im.words, im.origin, K.Shared(im.st.g, im.k), im.cell, r, v);
    NotOpen(p, im, v.cons.index);
  }

  lemma {:induction false} CopyAt(g: R.Graph, words: seq<Value>, origin: map<nat, nat>, shared: set<nat>,
                                  cell: map<nat, nat>, r: R.Ref, v: Value)
    requires R.Acyclic(g) && R.NopsLeadToRibs(g) && R.Below(r, |g|) && r.Rib? && g[r.id].tag != R.NOP_TAG
    requires E.IsCopy(g, words, origin, shared, cell, r, v)
    ensures v.Pointer? && v.cons.index % 2 == 0 && v.cons.index + 1 < |words|
    ensures v.cons.index in origin && origin[v.cons.index] == r.id
    ensures words[v.cons.index + 1].Tag() == g[r.id].tag
    ensures R.Below(g[r.id].car, |g|) && R.Below(g[r.id].cdr, |g|)
    ensures E.IsCopy(g, words, origin, shared, cell, g[r.id].car, words[v.cons.index])
    ensures E.IsCopy(g, words, origin, shared, cell, g[r.id].cdr, words[v.cons.index + 1])
  {
    assert R.Strip(g, r) == r;
  }

  // ----- code in the image -----

  lemma {:induction false} CodeIsNoSymbol(p: M.Source, im: Image, id: nat)
    requires IsImage(p, im) && id in im.k.code
    ensures !IsSymbol(im, id)
  {
    forall i: nat | M.Symbol(i) in im.st.constants ensures im.st.constants[M.Symbol(i)] != id {
      assert M.HasConstant(p, im.st, im.k, M.Symbol(i));
    }
  }

  lemma {:induction false} TagIsNoSymbol(p: M.Source, im: Image, id: nat)
    requires IsImage(p, im) && id < |im.st.g| && im.st.g[id].tag != K.SYMBOL_TAG
    ensures !IsSymbol(im, id)
  {
    forall i: nat | M.Symbol(i) in im.st.constants ensures im.st.constants[M.Symbol(i)] != id {
      assert M.HasConstant(p, im.st, im.k, M.Symbol(i));
    }
  }

  /** Null, a nop or an instruction, whether a nop leads to it or not. */
  predicate IsCodeRib(im: Image, r: R.Ref) {
    r.Rib? ==> r.id == im.k.nil || r.id in im.k.code || (r.id < |im.st.g| && im.st.g[r.id].tag == R.NOP_TAG)
  }

  /** What is known of the cell of an instruction. */
  ghost predicate IsInstructionAt(p: M.Source, im: Image, w: World, r: R.Ref, v: Value)
    requires IsImage(p, im)
  {
    && r.Rib? && r.id < |im.st.g| && v.Pointer? && IsFixed(w, v.cons.index) && v.cons.index != w.nil
    && w.fixed[v.cons.index + 1].Tag() == im.st.g[r.id].tag
    && Copied(p, im, im.st.g[r.id].car, w.fixed[v.cons.index])
    && Copied(p, im, im.st.g[r.id].cdr, w.fixed[v.cons.index + 1])
    && IsCodeRib(im, im.st.g[r.id].cdr)
    && if im.st.g[r.id].tag == K.IF_TAG then IsCodeRib(im, im.st.g[r.id].car)
       else K.IsData(im.st.g, im.k, im.st.g[r.id].car)
  }

  lemma {:induction false} InstructionIsAt(p: M.Source, im: Image, w: World, ids: map<Name, nat>, r: R.Ref, v: Value)
    requires IsImage(p, im) && Shows(w, im, ids) && Copied(p, im, r, v) && r.Rib?
    requires IsCodeRib(im, r) && !C.IsConstant(im.st, r, M.Nil) && im.st.g[r.id].tag != R.NOP_TAG
    ensures IsInstructionAt(p, im, w, r, v)
  {
    hide M.Fine, IsSymbol, E.IsCopy, IsOpen, K.Shared, K.Typed, K.IsTypedNode;
    M.FineIsTyped(p, im.st, im.k);
    assert r.id in im.k.code;
    CodeIsNoSymbol(p, im, r.id);
    RibIsAt(p, im, w, ids, r, v);
    OtherCell(p, im, v.cons.index, M.Nil);
    CodeFields(p, im, r);
  }

  lemma {:induction false} CodeFields(p: M.Source, im: Image, r: R.Ref)
    requires IsImage(p, im) && r.Rib? && r.id < |im.st.g| && r.id in im.k.code && im.st.g[r.id].tag != R.NOP_TAG
    ensures R.Below(im.st.g[r.id].car, |im.st.g|) && R.Below(im.st.g[r.id].cdr, |im.st.g|)
    ensures IsCodeRib(im, im.st.g[r.id].cdr)
    ensures if im.st.g[r.id].tag == K.IF_TAG then IsCodeRib(im, im.st.g[r.id].car)
            else K.IsData(im.st.g, im.k, im.st.g[r.id].car)
  {
    M.FineIsTyped(p, im.st, im.k);
    hide M.Fine;
    assert K.IsTypedNode(im.st.g, im.k, r.id);
  }

  lemma {:induction false} NumberIsAt(p: M.Source, im: Image, r: R.Ref, v: Value)
    requires IsImage(p, im) && Copied(p, im, r, v) && r.Int?
    ensures v == Number(r.n)
  {
  }

  lemma {:induction false} OperandIsAt(p: M.Source, im: Image, w: World, ids: map<Name, nat>, limit: nat, r: R.Ref,
                                       v: Value, d: M.Datum, o: Operand)
    requires IsImage(p, im) && Shows(w, im, ids) && Copied(p, im, r, v) && limit <= |p.nops|
    requires M.DatumFits(p, limit, d) && R.Acyclic(im.st.g) && C.IsDatumOf(p, limit, im.st, r, d)
    requires MeansOperand(ids, d, o)
    ensures HasOperand(w, o, v)
  {
    hide M.Fine, E.IsCopy, IsOpen;
    match o
    case Index(i) => NumberIsAt(p, im, r, v);
    case Symbol(x) => ConstantIsAt(p, im, r, v, d);
  }

  /** Every image of the code of a program is code as the machine runs it. */
  lemma {:induction false} CodeIsAt(p: M.Source, im: Image, w: World, ids: map<Name, nat>, limit: nat, r: R.Ref,
                                    v: Value, c: M.Code, k: Code)
    requires IsImage(p, im) && Shows(w, im, ids) && Copied(p, im, r, v) && limit <= |p.nops| && M.CodeFits(p, limit, c)
    requires R.Acyclic(im.st.g) && C.IsCodeOf(p, limit, im.st, r, c) && IsCodeRib(im, r)
    requires Means(p, ids, c, k)
    ensures v.Pointer? && HasCode(w, v.cons.index, k)
    decreases k, 1
  {
    hide M.Fine, E.IsCopy, IsOpen, Shows, K.IsCode, CompileSequence;
    match k
    case Return => EndIsAt(p, im, w, ids, r, v);
    case Nop(next) =>
      NopIsAt(p, im, r, v);
      CodeIsAt(p, im, w, ids, c.id, im.st.g[r.id].cdr, v, p.nops[c.id], next);
    case Push(constant, next) =>
      InstructionIsAt(p, im, w, ids, r, v);
      var i, node := v.cons.index, im.st.g[r.id];
      ConstantsAt(p, im, w, ids, limit, node.car, w.fixed[i], c.operand, constant);
      CodeIsAt(p, im, w, ids, limit, node.cdr, w.fixed[i + 1], c.next, next);
    case Get(o, next) =>
      InstructionIsAt(p, im, w, ids, r, v);
      var i, node := v.cons.index, im.st.g[r.id];
      OperandIsAt(p, im, w, ids, limit, node.car, w.fixed[i], c.operand, o);
      CodeIsAt(p, im, w, ids, limit, node.cdr, w.fixed[i + 1], c.next, next);
    case Set(o, next) =>
      InstructionIsAt(p, im, w, ids, r, v);
      var i, node := v.cons.index, im.st.g[r.id];
      OperandIsAt(p, im, w, ids, limit, node.car, w.fixed[i], c.operand, o);
      CodeIsAt(p, im, w, ids, limit, node.cdr, w.fixed[i + 1], c.next, next);
    case Call(_, o, next) =>
      InstructionIsAt(p, im, w, ids, r, v);
      var i, node := v.cons.index, im.st.g[r.id];
      OperandIsAt(p, im, w, ids, limit, node.car, w.fixed[i], c.operand, o);
      CodeIsAt(p, im, w, ids, limit, node.cdr, w.fixed[i + 1], c.next, next);
    case Branch(b, next) =>
      InstructionIsAt(p, im, w, ids, r, v);
      var i, node := v.cons.index, im.st.g[r.id];
      CodeIsAt(p, im, w, ids, limit, node.car, w.fixed[i], c.then_, b);
      CodeIsAt(p, im, w, ids, limit, node.cdr, w.fixed[i + 1], c.next, next);
  }

  lemma {:induction false} EndIsAt(p: M.Source, im: Image, w: World, ids: map<Name, nat>, r: R.Ref, v: Value)
    requires IsImage(p, im) && Shows(w, im, ids) && Copied(p, im, r, v) && C.IsConstant(im.st, r, M.Nil)
    ensures v.Pointer? && v.cons.index == w.nil
  {
    ConstantIsAt(p, im, r, v, M.Nil);
  }

  lemma {:induction false} NopIsAt(p: M.Source, im: Image, r: R.Ref, v: Value)
    requires IsImage(p, im) && Copied(p, im, r, v) && r.Rib? && im.st.g[r.id].tag == R.NOP_TAG
    ensures Copied(p, im, im.st.g[r.id].cdr, v) && IsCodeRib(im, im.st.g[r.id].cdr)
  {
    hide M.Fine, K.Shared;
    M.FineIsTyped(p, im.st, im.k);
    NopLeadsToCode(p, im, r);
  }

  lemma {:induction false} NopLeadsToCode(p: M.Source, im: Image, r: R.Ref)
    requires IsImage(p, im) && r.Rib? && r.id < |im.st.g| && im.st.g[r.id].tag == R.NOP_TAG
    ensures IsCodeRib(im, im.st.g[r.id].cdr)
  {
    M.FineIsTyped(p, im.st, im.k);
    hide M.Fine;
    assert K.IsTypedNode(im.st.g, im.k, r.id);
  }

  lemma {:induction false} ConstantsAt(p: M.Source, im: Image, w: World, ids: map<Name, nat>, limit: nat, r: R.Ref,
                                       v: Value, d: M.Datum, constant: Constant)
    requires IsImage(p, im) && Shows(w, im, ids) && Copied(p, im, r, v) && limit <= |p.nops|
    requires M.DatumFits(p, limit, d) && R.Acyclic(im.st.g) && C.IsDatumOf(p, limit, im.st, r, d)
    requires K.IsData(im.st.g, im.k, r) && MeansConstant(p, ids, d, constant)
    ensures HasConstant(w, constant, v)
    decreases constant, 1
  {
    hide M.Fine, E.IsCopy, IsOpen;
    match constant
    case Quoted(False) => ConstantIsAt(p, im, r, v, d);
    case Quoted(Null) => ConstantIsAt(p, im, r, v, d);
    case Quoted(Datum(_)) => NumberIsAt(p, im, r, v);
    case Routine(arity, body) =>
      ProcedureIsAt(p, im, w, ids, r, v);
      var i, node := v.cons.index, im.st.g[r.id];
      RoutineIsAt(p, im, w, ids, limit, node.car, w.fixed[i], d.body, arity, body);
  }

  lemma {:induction false} RoutineIsAt(p: M.Source, im: Image, w: World, ids: map<Name, nat>, limit: nat, r: R.Ref,
                                       v: Value, c: M.Code, arity: nat, body: Code)
    requires IsImage(p, im) && Shows(w, im, ids) && Copied(p, im, r, v) && limit <= |p.nops| && M.CodeFits(p, limit, c)
    requires R.Acyclic(im.st.g) && C.IsCodeOf(p, limit, im.st, r, c) && IsCodeRib(im, r)
    requires c.Instruction? && c.tag == 0 && c.operand == M.Number(arity) && Means(p, ids, c.next, body)
    ensures v.Pointer? && HasRoutine(w, v.cons.index, arity, body)
    decreases body, 2
  {
    hide M.Fine, E.IsCopy, IsOpen, Shows, K.IsCode;
    InstructionIsAt(p, im, w, ids, r, v);
    var i, node := v.cons.index, im.st.g[r.id];
    NumberIsAt(p, im, node.car, w.fixed[i]);
    CodeIsAt(p, im, w, ids, limit, node.cdr, w.fixed[i + 1], c.next, body);
  }

  /** The cell of a procedure: its code, and null for its environment. */
  lemma {:induction false} ProcedureIsAt(p: M.Source, im: Image, w: World, ids: map<Name, nat>, r: R.Ref, v: Value)
    requires IsImage(p, im) && Shows(w, im, ids) && Copied(p, im, r, v) && K.IsData(im.st.g, im.k, r) && r.Rib?
    requires im.st.g[r.id].tag == Machine.PROCEDURE && R.Below(im.st.g[r.id].cdr, |im.st.g|)
    requires C.IsConstant(im.st, im.st.g[r.id].cdr, M.Nil)
    ensures v.Pointer? && IsFixed(w, v.cons.index) && v.cons.index != w.no && v.cons.index != w.nil
    ensures w.fixed[v.cons.index + 1].Pointer? && w.fixed[v.cons.index + 1].cons.tag == Machine.PROCEDURE
    ensures Next(w, v.cons.index) == w.nil && Copied(p, im, im.st.g[r.id].car, w.fixed[v.cons.index])
    ensures IsCodeRib(im, im.st.g[r.id].car)
  {
    TagIsNoSymbol(p, im, r.id);
    M.FineIsTyped(p, im.st, im.k);
    assert M.HasConstant(p, im.st, im.k, M.Nil) && M.HasConstant(p, im.st, im.k, M.Boolean(false));
    hide M.Fine, IsSymbol, E.IsCopy, IsOpen, K.Shared;
    RibIsAt(p, im, w, ids, r, v);
    OtherCell(p, im, v.cons.index, M.Nil);
    OtherCell(p, im, v.cons.index, M.Boolean(false));
    ConstantIsAt(p, im, im.st.g[r.id].cdr, im.words[v.cons.index + 1], M.Nil);
    assert K.IsTypedNode(im.st.g, im.k, r.id);
  }

  // ----- symbols in the image -----

  /** The cell of a symbol, whose value is false. */
  ghost predicate IsSymbolAt(im: Image, ids: map<Name, nat>, x: Name) {
    && x in ids && Has(im, M.Symbol(ids[x])) && Has(im, M.Boolean(false))
    && var y := CellOf(im, M.Symbol(ids[x]));
       && y % 2 == 0 && y + 1 < |im.words| && im.words[y + 1].Tag() == K.SYMBOL_TAG
       && im.words[y].Pointer? && im.words[y].cons.index == CellOf(im, M.Boolean(false))
  }

  lemma {:induction false} SymbolIsAt(p: M.Source, im: Image, ids: map<Name, nat>, r: R.Ref, v: Value, x: Name)
    requires IsImage(p, im) && Copied(p, im, r, v) && x in ids && C.IsConstant(im.st, r, M.Symbol(ids[x]))
    ensures IsSymbolAt(im, ids, x)
  {
    hide M.Fine, E.IsCopy, K.Shared, K.IsTypedNode;
    M.FineIsTyped(p, im.st, im.k);
    M.SymbolHoldsFalse(p, im.st, im.k, ids[x]);
    ConstantIsAt(p, im, r, v, M.Symbol(ids[x]));
    CopyAt(im.st.g, im.words, im.origin, K.Shared(im.st.g, im.k), im.cell, r, v);
    ConstantIsAt(p, im, im.st.g[r.id].car, im.words[v.cons.index], M.Boolean(false));
  }

  lemma {:induction false} MentionedOperandIsAt(p: M.Source, im: Image, ids: map<Name, nat>, limit: nat, r: R.Ref,
                                                v: Value, d: M.Datum, o: Operand, x: Name)
    requires IsImage(p, im) && Copied(p, im, r, v) && limit <= |p.nops| && M.DatumFits(p, limit, d)
    requires R.Acyclic(im.st.g) && C.IsDatumOf(p, limit, im.st, r, d) && MeansOperand(ids, d, o)
    requires x in MentionsInOperand(o)
    ensures IsSymbolAt(im, ids, x)
  {
    hide M.Fine, E.IsCopy;
    SymbolIsAt(p, im, ids, r, v, x);
  }

  /** Every name that the code mentions is a symbol of the image. */
  lemma {:induction false} MentionedIsAt(p: M.Source, im: Image, w: World, ids: map<Name, nat>, limit: nat, r: R.Ref,
                                         v: Value, c: M.Code, k: Code, x: Name)
    requires IsImage(p, im) && Shows(w, im, ids) && Copied(p, im, r, v) && limit <= |p.nops| && M.CodeFits(p, limit, c)
    requires R.Acyclic(im.st.g) && C.IsCodeOf(p, limit, im.st, r, c) && IsCodeRib(im, r)
    requires Means(p, ids, c, k) && x in Mentions(k)
    ensures IsSymbolAt(im, ids, x)
    decreases k, 1
  {
    hide M.Fine, E.IsCopy, IsOpen, Shows, IsSymbolAt;
    if k.Nop? {
      NopIsAt(p, im, r, v);
      MentionedIsAt(p, im, w, ids, c.id, im.st.g[r.id].cdr, v, p.nops[c.id], k.next, x);
    } else {
      InstructionIsAt(p, im, w, ids, r, v);
      var i, node := v.cons.index, im.st.g[r.id];
      if x in Mentions(k.next) {
        MentionedIsAt(p, im, w, ids, limit, node.cdr, w.fixed[i + 1], c.next, k.next, x);
      } else {
        match k
        case Push(constant, _) =>
          MentionedInConstantIsAt(p, im, w, ids, limit, node.car, w.fixed[i], c.operand, constant, x);
        case Branch(b, _) => MentionedIsAt(p, im, w, ids, limit, node.car, w.fixed[i], c.then_, b, x);
        case Get(o, _) => MentionedOperandIsAt(p, im, ids, limit, node.car, w.fixed[i], c.operand, o, x);
        case Set(o, _) => MentionedOperandIsAt(p, im, ids, limit, node.car, w.fixed[i], c.operand, o, x);
        case Call(_, o, _) => MentionedOperandIsAt(p, im, ids, limit, node.car, w.fixed[i], c.operand, o, x);
      }
    }
  }

  lemma {:induction false} MentionedInConstantIsAt(p: M.Source, im: Image, w: World, ids: map<Name, nat>, limit: nat,
                                                   r: R.Ref, v: Value, d: M.Datum, constant: Constant, x: Name)
    requires IsImage(p, im) && Shows(w, im, ids) && Copied(p, im, r, v) && limit <= |p.nops|
    requires M.DatumFits(p, limit, d) && R.Acyclic(im.st.g) && C.IsDatumOf(p, limit, im.st, r, d)
    requires K.IsData(im.st.g, im.k, r) && MeansConstant(p, ids, d, constant) && x in MentionsInConstant(constant)
    ensures IsSymbolAt(im, ids, x)
    decreases constant, 1
  {
    hide M.Fine, E.IsCopy, IsOpen, Shows, IsSymbolAt;
    ProcedureIsAt(p, im, w, ids, r, v);
    var code, u := im.st.g[r.id].car, w.fixed[v.cons.index];
    InstructionIsAt(p, im, w, ids, code, u);
    MentionedIsAt(p, im, w, ids, limit, im.st.g[code.id].cdr, w.fixed[u.cons.index + 1], d.body.next, constant.body, x);
  }
}
