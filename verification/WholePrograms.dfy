/** Whole programs: from an expression to bytecode, and from bytecode to the value of the expression. */
module WholePrograms {
  import opened Stores
  import opened Scheme
  import opened CodeGenerator
  import opened Worlds
  import opened Loading
  import opened Booting
  import opened Distinctness
  import Machine
  import R = RibGraphs
  import M = Marshalling
  import C = CodeGraphs
  import K = Counting
  import E = EndToEnd
  import Programs
  import Globals
  import Compilation
  import MarshalContexts
  import Vms
  import Tokens = RibTokens
  import HeapDecoding
  import opened Memories

  // ----- the start of the code -----

  /** Code that names primitives. */
  function BootCode(ids: map<Name, nat>, ps: Primitives, c: M.Code): M.Code
    requires forall i :: 0 <= i < |ps| ==> ps[i].0 in ids
    decreases |ps|
  {
    if ps == [] then c
    else
      M.Instruction(Machine.CONSTANT, M.Primitive(ps[0].1),
                    M.Instruction(Machine.SET, M.Symbol(ids[ps[0].0]), BootCode(ids, ps[1..], c)))
  }

  lemma {:induction false} BootCodeFits(p: M.Source, limit: nat, ids: map<Name, nat>, ps: Primitives, c: M.Code)
    requires forall i :: 0 <= i < |ps| ==> ps[i].0 in ids && ids[ps[i].0] < |p.names|
    requires M.CodeFits(p, limit, c)
    ensures M.CodeFits(p, limit, BootCode(ids, ps, c))
    decreases |ps|
  {
    if ps != [] {
      BootCodeFits(p, limit, ids, ps[1..], c);
    }
  }

  lemma {:induction false} PrimitiveIsAt(p: M.Source, im: Image, w: World, ids: map<Name, nat>, limit: nat, r: R.Ref,
                                         v: Value, id: int)
    requires IsImage(p, im) && Shows(w, im, ids) && Copied(p, im, r, v) && limit <= |p.nops|
    requires R.Acyclic(im.st.g) && M.DatumFits(p, limit, M.Primitive(id))
    requires C.IsDatumOf(p, limit, im.st, r, M.Primitive(id)) && K.IsData(im.st.g, im.k, r)
    ensures IsPrimitiveAt(w, v, id)
  {
    hide M.Fine, E.IsCopy, IsOpen, Shows;
    ProcedureIsAt(p, im, w, ids, r, v);
    NumberIsAt(p, im, im.st.g[r.id].car, w.fixed[v.cons.index]);
  }

  /** The image of a program starts with naming the primitives. */
  lemma {:induction false} BootIsAt(p: M.Source, im: Image, w: World, ids: map<Name, nat>, limit: nat, r: R.Ref,
                                    v: Value, ps: Primitives, c: M.Code, k: Code)
    requires IsImage(p, im) && Shows(w, im, ids) && Copied(p, im, r, v) && limit <= |p.nops|
    requires forall i :: 0 <= i < |ps| ==> ps[i].0 in ids && ids[ps[i].0] < |p.names|
    requires M.CodeFits(p, limit, c) && M.CodeFits(p, limit, BootCode(ids, ps, c))
    requires R.Acyclic(im.st.g) && C.IsCodeOf(p, limit, im.st, r, BootCode(ids, ps, c)) && IsCodeRib(im, r)
    requires Means(p, ids, c, k)
    ensures v.Pointer? && HasBoot(w, v.cons.index, ps, k)
    ensures forall i :: 0 <= i < |ps| ==> IsSymbolAt(im, ids, ps[i].0)
    ensures forall x :: x in Globals.Mentions(k) ==> IsSymbolAt(im, ids, x)
    decreases |ps|
  {
    hide M.Fine, E.IsCopy, IsOpen, Shows, IsSymbolAt, HasCode;
    if ps == [] {
      CodeIsAt(p, im, w, ids, limit, r, v, c, k);
      forall x | x in Globals.Mentions(k) ensures IsSymbolAt(im, ids, x) {
        MentionedIsAt(p, im, w, ids, limit, r, v, c, k, x);
      }
    } else {
      var code := BootCode(ids, ps, c);
      InstructionIsAt(p, im, w, ids, r, v);
      var i, node := v.cons.index, im.st.g[r.id];
      PrimitiveIsAt(p, im, w, ids, limit, node.car, w.fixed[i], ps[0].1);
      SetIsAt(p, im, w, ids, limit, node.cdr, w.fixed[i + 1], code.next, ps[0].0);
      var j, node' := w.fixed[i + 1].cons.index, im.st.g[node.cdr.id];
      BootIsAt(p, im, w, ids, limit, node'.cdr, w.fixed[j + 1], ps[1..], c, k);
      forall n | 0 <= n < |ps| ensures IsSymbolAt(im, ids, ps[n].0) {
        if n > 0 {
          assert ps[1..][n - 1] == ps[n];
        }
      }
    }
  }

  lemma {:induction false} SetIsAt(p: M.Source, im: Image, w: World, ids: map<Name, nat>, limit: nat, r: R.Ref,
                                   v: Value, c: M.Code, x: Name)
    requires IsImage(p, im) && Shows(w, im, ids) && Copied(p, im, r, v) && limit <= |p.nops| && M.CodeFits(p, limit, c)
    requires R.Acyclic(im.st.g) && C.IsCodeOf(p, limit, im.st, r, c) && IsCodeRib(im, r)
    requires c.Instruction? && c.tag == Machine.SET && x in ids && c.operand == M.Symbol(ids[x])
    ensures IsInstructionAt(p, im, w, r, v) && HasOperand(w, Symbol(x), w.fixed[v.cons.index])
    ensures IsSymbolAt(im, ids, x)
  {
    hide M.Fine, E.IsCopy, IsOpen, Shows, IsSymbolAt;
    InstructionIsAt(p, im, w, ids, r, v);
    var node := im.st.g[r.id];
    OperandIsAt(p, im, w, ids, limit, node.car, w.fixed[v.cons.index], c.operand, Symbol(x));
    SymbolIsAt(p, im, ids, node.car, w.fixed[v.cons.index], x);
  }

  // ----- the start of a run -----

  /** What the image shows of a heap that it is part of. */
  ghost function ImageWorld(im: Image, ids: map<Name, nat>, words: seq<Value>): World
    requires Has(im, M.Nil) && Has(im, M.Boolean(false))
  {
    World(map j: nat | j < |words| && !IsOpen(im, j) :: words[j], [],
          map x | x in ids && Has(im, M.Symbol(ids[x])) :: CellOf(im, M.Symbol(ids[x])),
          CellOf(im, M.Boolean(false)), CellOf(im, M.Nil))
  }

  lemma {:induction false} ImageShows(im: Image, ids: map<Name, nat>, words: seq<Value>)
    requires Has(im, M.Nil) && Has(im, M.Boolean(false)) && im.words <= words
    ensures var w := ImageWorld(im, ids, words); Shows(w, im, ids) && FixedIn(w, words)
    ensures forall j: nat :: |im.words| <= j < |words| ==> j in ImageWorld(im, ids, words).fixed
  {
  }

  /** The false value holds null. */
  lemma {:induction false} FalseIsAt(p: M.Source, im: Image, w: World, ids: map<Name, nat>, r: R.Ref, v: Value)
    requires IsImage(p, im) && Shows(w, im, ids) && Copied(p, im, r, v) && C.IsConstant(im.st, r, M.Boolean(false))
    ensures v.Pointer? && v.cons.index == w.no && IsFixed(w, w.no) && w.no + 1 < |im.words|
    ensures w.fixed[w.no] == im.words[w.no] && im.words[w.no].Pointer? && im.words[w.no].cons.index == w.nil
    ensures w.nil % 2 == 0 && w.nil + 1 < |im.words| && w.nil != w.no
  {
    M.FineIsTyped(p, im.st, im.k);
    assert M.HasConstant(p, im.st, im.k, M.Boolean(false)) && M.HasConstant(p, im.st, im.k, M.Nil);
    hide M.Fine, IsSymbol, E.IsCopy, IsOpen, K.Shared, K.IsTypedNode;
    ConstantIsAt(p, im, r, v, M.Boolean(false));
    TagIsNoSymbol(p, im, r.id);
    M.FalseHasNull(p, im.st, im.k, r);
    RibIsAt(p, im, w, ids, r, v);
    ConstantIsAt(p, im, im.st.g[r.id].car, im.words[v.cons.index], M.Nil);
    OtherCell(p, im, v.cons.index, M.Nil);
  }

  /** Neither the false value nor null is a procedure. */
  lemma {:induction false} FalseIsOther(p: M.Source, im: Image, w: World, ids: map<Name, nat>, r: R.Ref, v: Value)
    requires IsImage(p, im) && Shows(w, im, ids) && Copied(p, im, r, v) && C.IsConstant(im.st, r, M.Boolean(false))
    requires v.Pointer? && v.cons.index == w.no
    requires v.cons.index < |im.words| && im.words[v.cons.index].Pointer? && im.words[v.cons.index].cons.index == w.nil
    ensures IsOther(w, w.no) && IsOther(w, w.nil)
  {
    M.FineIsTyped(p, im.st, im.k);
    assert M.HasConstant(p, im.st, im.k, M.Boolean(false));
    hide M.Fine, IsSymbol, E.IsCopy, IsOpen, K.Shared, K.IsTypedNode, Shows;
    M.FalseHasNull(p, im.st, im.k, r);
    FieldsCopied(p, im, r, v);
    OtherIsAt(p, im, w, ids, r, v);
    OtherIsAt(p, im, w, ids, im.st.g[r.id].car, im.words[v.cons.index]);
  }

  lemma {:induction false} OtherIsAt(p: M.Source, im: Image, w: World, ids: map<Name, nat>, r: R.Ref, v: Value)
    requires IsImage(p, im) && Shows(w, im, ids) && Copied(p, im, r, v) && r.Rib? && r.id < |im.st.g|
    requires im.st.g[r.id].tag == K.BOOLEAN_TAG || im.st.g[r.id].tag == K.NULL_TAG
    requires im.st.g[r.id].cdr.Rib?
    ensures v.Pointer? && IsOther(w, v.cons.index)
  {
    hide M.Fine, IsSymbol, E.IsCopy, IsOpen, K.Shared, K.IsTypedNode, Shows;
    TagIsNoSymbol(p, im, r.id);
    RibIsAt(p, im, w, ids, r, v);
    CopiedRibIsPointer(p, im, im.st.g[r.id].cdr, im.words[v.cons.index + 1]);
  }

  lemma {:induction false} CopiedRibIsPointer(p: M.Source, im: Image, r: R.Ref, v: Value)
    requires IsImage(p, im) && Copied(p, im, r, v) && r.Rib?
    ensures v.Pointer?
  {
  }

  /** The rib of a program, its copy, and the code that it holds. */
  ghost predicate IsProgramAt(p: M.Source, im: Image, ids: map<Name, nat>, root: R.Ref, a: Cons, code: M.Code,
                              k: Code)
  {
    && IsImage(p, im) && Copied(p, im, root, Pointer(a)) && root.Rib? && R.Acyclic(im.st.g)
    && (forall i :: 0 <= i < |PRIMITIVES| ==> PRIMITIVES[i].0 in ids && ids[PRIMITIVES[i].0] < |p.names|)
    && M.CodeFits(p, |p.nops|, code) && M.CodeFits(p, |p.nops|, BootCode(ids, PRIMITIVES, code))
    && C.IsCodeOf(p, |p.nops|, im.st, root, M.Instruction(0, M.Boolean(false), BootCode(ids, PRIMITIVES, code)))
    && IsCodeRib(im, root) && Means(p, ids, code, k)
  }

  lemma {:induction false} RootFields(p: M.Source, im: Image, ids: map<Name, nat>, root: R.Ref, a: Cons, code: M.Code,
                                      k: Code)
    requires IsProgramAt(p, im, ids, root, a, code, k)
    ensures root.id < |im.st.g| && im.st.g[root.id].tag == 0 && !C.IsConstant(im.st, root, M.Nil)
    ensures C.IsConstant(im.st, im.st.g[root.id].car, M.Boolean(false))
    ensures R.Below(im.st.g[root.id].cdr, |im.st.g|)
    ensures C.IsCodeOf(p, |p.nops|, im.st, im.st.g[root.id].cdr, BootCode(ids, PRIMITIVES, code))
  {
    hide M.Fine, E.IsCopy, K.Shared, Means, BootCode, IsCodeRib;
    var f := im.st.g[root.id].car;
    assert C.IsDatumOf(p, |p.nops|, im.st, f, M.Boolean(false));
  }

  // A copy of a rib is made of copies of its fields.
  lemma {:induction false} FieldsCopied(p: M.Source, im: Image, r: R.Ref, v: Value)
    requires IsImage(p, im) && Copied(p, im, r, v) && r.Rib? && im.st.g[r.id].tag != R.NOP_TAG
    ensures v.Pointer? && v.cons.index % 2 == 0 && v.cons.index + 1 < |im.words|
    ensures Copied(p, im, im.st.g[r.id].car, im.words[v.cons.index])
    ensures Copied(p, im, im.st.g[r.id].cdr, im.words[v.cons.index + 1])
  {
    hide M.Fine, E.IsCopy, K.Shared, K.IsTypedNode;
    M.FineIsTyped(p, im.st, im.k);
    CopyAt(im.st.g, im.words, im.origin, K.Shared(im.st.g, im.k), im.cell, r, v);
  }

  // The rib of the false value.
  lemma {:induction false} FalseRib(p: M.Source, im: Image, r: R.Ref)
    requires IsImage(p, im) && C.IsConstant(im.st, r, M.Boolean(false))
    ensures r.Rib? && r.id < |im.st.g| && im.st.g[r.id].tag == K.BOOLEAN_TAG
    ensures C.IsConstant(im.st, im.st.g[r.id].car, M.Nil)
  {
    M.FineIsTyped(p, im.st, im.k);
    assert M.HasConstant(p, im.st, im.k, M.Boolean(false));
    hide M.Fine, K.IsTypedNode;
    M.FalseHasNull(p, im.st, im.k, r);
  }

  lemma {:induction false} ConstantsAreThere(p: M.Source, im: Image, ids: map<Name, nat>, root: R.Ref, a: Cons,
                                             code: M.Code, k: Code)
    requires IsProgramAt(p, im, ids, root, a, code, k)
    ensures Has(im, M.Nil) && Has(im, M.Boolean(false))
  {
    hide M.Fine, Copied, Means, M.CodeFits, C.IsCodeOf;
    RootFields(p, im, ids, root, a, code, k);
    FieldsCopied(p, im, root, Pointer(a));
    var f, v := im.st.g[root.id].car, im.words[a.index];
    ConstantIsAt(p, im, f, v, M.Boolean(false));
    FalseRib(p, im, f);
    FieldsCopied(p, im, f, v);
    ConstantIsAt(p, im, im.st.g[f.id].car, im.words[v.cons.index], M.Nil);
  }

  /** What is known of the cell of a program. */
  ghost predicate IsStart(im: Image, w: World, a: Cons, k: Code) {
    && a.index % 2 == 0 && a.index + 1 < |im.words|
    && im.words[a.index].Pointer? && im.words[a.index].cons.index == w.no
    && im.words[a.index + 1].Pointer? && HasBoot(w, im.words[a.index + 1].cons.index, PRIMITIVES, k)
    && IsFixed(w, w.no) && w.no + 1 < |im.words| && w.fixed[w.no] == im.words[w.no]
    && im.words[w.no].Pointer? && im.words[w.no].cons.index == w.nil
    && w.nil % 2 == 0 && w.nil + 1 < |im.words| && w.nil != w.no && IsOther(w, w.no) && IsOther(w, w.nil)
  }

  lemma {:induction false} ProgramIsAt(p: M.Source, im: Image, w: World, ids: map<Name, nat>, root: R.Ref, a: Cons,
                                       code: M.Code, k: Code)
    requires IsProgramAt(p, im, ids, root, a, code, k) && Shows(w, im, ids)
    ensures IsStart(im, w, a, k)
    ensures forall i :: 0 <= i < |PRIMITIVES| ==> IsSymbolAt(im, ids, PRIMITIVES[i].0)
    ensures forall x :: x in Globals.Mentions(k) ==> IsSymbolAt(im, ids, x)
  {
    hide M.Fine, Copied, Means, IsOpen, Shows, HasBoot, IsSymbolAt, BootCode;
    RootFields(p, im, ids, root, a, code, k);
    InstructionIsAt(p, im, w, ids, root, Pointer(a));
    FieldsCopied(p, im, root, Pointer(a));
    var node := im.st.g[root.id];
    FalseIsAt(p, im, w, ids, node.car, im.words[a.index]);
    FalseIsOther(p, im, w, ids, node.car, im.words[a.index]);
    BootIsAt(p, im, w, ids, |p.nops|, node.cdr, im.words[a.index + 1], PRIMITIVES, code, k);
  }

  /** Initialization leads to the code of the program with the first frame on the stack. */
  lemma {:induction false} Initializes(im: Image, ids: map<Name, nat>, s: Store, a: Cons, k: Code) returns (s1: Store)
    requires Has(im, M.Nil) && Has(im, M.Boolean(false)) && im.words == s.words && |s.words| % 2 == 0
    requires IsStart(im, ImageWorld(im, ids, s.words), a, k)
    ensures Machine.InitializeOf(s, a) == Machine.Run.Ok(s1) && s.words <= s1.words
    ensures s1.code.index == s.words[a.index + 1].cons.index && s1.no.index == CellOf(im, M.Boolean(false))
    ensures |s1.words| == |s.words| + 6 && Machine.NullOf(s1).Ok?
    ensures Machine.NullOf(s1).value.index == CellOf(im, M.Nil) && s1.stack.index < |s1.words|
  {
    hide HasBoot, IsOpen;
    var no, code := s.words[a.index].cons, s.words[a.index + 1].cons;
    assert Machine.ConsAtCar(s, a) == Machine.Run.Ok(no) && Machine.ConsAtCdr(s, a) == Machine.Run.Ok(code);
    var nil := s.words[no.index].cons;
    assert Machine.NullOf(s.(no := no, code := code)) == Machine.Run.Ok(nil);
    s1 := Machine.InitializeOf(s, a).value;
    assert s1.no == no && s1.code == code && s.words <= s1.words;
  }

  // ----- globals -----

  /** A global variable starts as a primitive if it is the name of one, and as false otherwise. */
  function PrimitiveOf(ps: Primitives, x: Name): Data {
    if ps == [] then Plain(False) else if ps[0].0 == x then Data.Primitive(ps[0].1) else PrimitiveOf(ps[1..], x)
  }

  function Initials(ps: Primitives, globals: seq<Name>): (st: Locations)
    ensures |st| == |globals| && forall i :: 0 <= i < |st| ==> st[i] == PrimitiveOf(ps, globals[i])
  {
    seq(|globals|, i requires 0 <= i < |globals| => PrimitiveOf(ps, globals[i]))
  }

  function EnvOf(globals: seq<Name>): (env: Env)
    ensures forall x :: x in env ==> env[x] < |globals| && globals[env[x]] == x
    ensures forall x :: x in globals ==> x in env
  {
    if globals == [] then map[]
    else
      var n := |globals| - 1;
      EnvOf(globals[..n])[globals[n] := n]
  }

  predicate IsName(ps: Primitives, x: Name) {
    ps != [] && (ps[0].0 == x || IsName(ps[1..], x))
  }

  lemma {:induction false} NameIs(ps: Primitives, i: nat)
    requires i < |ps|
    ensures IsName(ps, ps[i].0)
    decreases i
  {
    if i > 0 {
      NameIs(ps[1..], i - 1);
    }
  }

  const CLOSER: Name := "$$close"
  const UNBINDER: Name := "$$unbind"

  /** The variables of a program: those that it uses, and names of primitives except the two that generated code
      itself relies on. */
  ghost predicate AreGlobals(globals: seq<Name>, used: set<Name>) {
    && Distinct(globals) && CLOSER !in globals && UNBINDER !in globals
    && forall x :: x in globals ==> x in used || IsName(PRIMITIVES, x)
  }

  lemma {:induction false} PrimitiveIs(ps: Primitives, x: Name) returns (i: nat)
    ensures if IsName(ps, x) then i < |ps| && ps[i].0 == x && PrimitiveOf(ps, x) == Data.Primitive(ps[i].1)
            else PrimitiveOf(ps, x) == Plain(False)
  {
    i := 0;
    if ps != [] && ps[0].0 != x {
      i := PrimitiveIs(ps[1..], x);
      i := i + 1;
    }
  }

  /** Different names have different symbols. */
  lemma {:induction false} SymbolsApart(p: M.Source, im: Image, ids: map<Name, nat>, x: Name, y: Name)
    requires IsImage(p, im) && IsSymbolAt(im, ids, x) && IsSymbolAt(im, ids, y) && x != y
    requires forall u, v :: u in ids && v in ids && ids[u] == ids[v] ==> u == v
    ensures CellOf(im, M.Symbol(ids[x])) != CellOf(im, M.Symbol(ids[y]))
  {
    var d, e := M.Symbol(ids[x]), M.Symbol(ids[y]);
    assert im.origin[CellOf(im, d)] == im.st.constants[d] && im.origin[CellOf(im, e)] == im.st.constants[e];
    assert M.Unique(im.st, im.k);
    hide M.Fine;
    assert d != e;
  }

  // ----- the machine is ready -----

  /** The symbols of globals and primitives are in the image, each its own cell. */
  ghost predicate HasSymbols(im: Image, w: World, ids: map<Name, nat>, names: set<Name>) {
    && (forall x :: x in names ==>
          && IsSymbolAt(im, ids, x) && x in w.symbols && w.symbols[x] == CellOf(im, M.Symbol(ids[x]))
          && w.symbols[x] !in w.fixed)
    && forall x, y :: x in names && y in names && x != y ==> w.symbols[x] != w.symbols[y]
  }

  lemma {:induction false} SymbolsAreThere(p: M.Source, im: Image, ids: map<Name, nat>, words: seq<Value>,
                                           names: set<Name>)
    requires IsImage(p, im) && Has(im, M.Nil) && Has(im, M.Boolean(false)) && im.words <= words
    requires forall x :: x in names ==> IsSymbolAt(im, ids, x)
    requires forall u, v :: u in ids && v in ids && ids[u] == ids[v] ==> u == v
    ensures HasSymbols(im, ImageWorld(im, ids, words), ids, names)
  {
    hide M.Fine;
    var w := ImageWorld(im, ids, words);
    forall x | x in names ensures x in w.symbols && w.symbols[x] !in w.fixed {
      assert IsOpen(im, w.symbols[x]);
    }
    forall x, y | x in names && y in names && x != y ensures w.symbols[x] != w.symbols[y] {
      SymbolsApart(p, im, ids, x, y);
    }
  }

  lemma {:induction false} NamesAreThere(im: Image, w: World, ids: map<Name, nat>, names: set<Name>, words: seq<Value>,
                                         ps: Primitives)
    requires HasSymbols(im, w, ids, names) && im.words <= words
    requires forall i :: 0 <= i < |ps| ==> ps[i].0 in names
    requires forall i, j :: 0 <= i < j < |ps| ==> ps[i].0 != ps[j].0
    ensures HasNames(w, words, ps)
  {
  }

  lemma {:induction false} PrimitivesApart(i: nat, j: nat)
    requires i < j < |PRIMITIVES|
    ensures PRIMITIVES[i].0 != PRIMITIVES[j].0
  {
    assert PRIMITIVES[i].1 < PRIMITIVES[j].1;
    assert PRIMITIVES[0].0 == "$$rib" && PRIMITIVES[1].0 == "$$close" && PRIMITIVES[2].0 == "$$unbind";
    assert PRIMITIVES[3].0 == "$$<" && PRIMITIVES[4].0 == "$$+" && PRIMITIVES[5].0 == "$$-";
    assert PRIMITIVES[6].0 == "$$*" && PRIMITIVES[7].0 == "$$/";
    assert "$$rib"[2] == 'r' && "$$close"[2] == 'c' && "$$unbind"[2] == 'u' && "$$<"[2] == '<' && "$$+"[2] == '+';
    assert "$$-"[2] == '-' && "$$*"[2] == '*' && "$$/"[2] == '/';
  }

  /** The world when the primitives have their names. */
  function LoadedWorld(w: World, words: seq<Value>, globals: seq<Name>): World
    requires CLOSER in w.symbols && w.symbols[CLOSER] < |words|
    requires UNBINDER in w.symbols && w.symbols[UNBINDER] < |words|
    requires forall x :: x in globals ==> x in w.symbols
  {
    var c, u := w.symbols[CLOSER], w.symbols[UNBINDER];
    w.(fixed := w.fixed[c := words[c]][u := words[u]],
       vars := seq(|globals|, i requires 0 <= i < |globals| => w.symbols[globals[i]]))
  }

  /** Everything is in place for the code of the program itself. */
  ghost predicate IsBooted(im: Image, w: World, ids: map<Name, nat>, names: set<Name>, globals: seq<Name>, s1: Store,
                           s2: Store, ps: Primitives, k: Code) {
    && Booted(w, s1, s2, ps, k) && HasSymbols(im, w, ids, names) && im.words <= s1.words
    && (forall i :: 0 <= i < |ps| ==> ps[i].0 in names) && (forall x :: x in globals ==> x in names)
    && |ps| > 2 && ps[1] == (CLOSER, Machine.CLOSE) && ps[2] == (UNBINDER, Machine.UNBIND)
    && Distinct(globals) && CLOSER !in globals && UNBINDER !in globals
    && Has(im, M.Boolean(false)) && w.no == CellOf(im, M.Boolean(false)) && w.vars == []
    && w.no % 2 == 0 && w.nil % 2 == 0 && w.nil + 1 < |im.words| && w.nil != w.no
    && IsOther(w, w.no) && IsOther(w, w.nil)
  }

  function LoadedPoint(w: World, s: Store, ps: Primitives, globals: seq<Name>): Point
    requires CLOSER in w.symbols && w.symbols[CLOSER] < |s.words|
    requires UNBINDER in w.symbols && w.symbols[UNBINDER] < |s.words|
    requires forall x :: x in globals ==> x in w.symbols
  {
    Point(LoadedWorld(w, s.words, globals), s, Initials(ps, globals))
  }

  lemma {:induction false} BootedNames(im: Image, w: World, ids: map<Name, nat>, names: set<Name>, globals: seq<Name>,
                                       s1: Store, s2: Store, ps: Primitives, k: Code)
    requires IsBooted(im, w, ids, names, globals, s1, s2, ps, k)
    ensures CLOSER in names && UNBINDER in names && |im.words| <= |s1.words| <= |s2.words|
    ensures forall x :: x in names ==> x in w.symbols && w.symbols[x] % 2 == 0 && w.symbols[x] + 1 < |im.words|
    ensures IsPrimitiveAt(w, s2.words[w.symbols[CLOSER]], Machine.CLOSE)
    ensures IsPrimitiveAt(w, s2.words[w.symbols[UNBINDER]], Machine.UNBIND)
  {
    hide HasNull, HasCode, IsPrimitiveAt;
    assert ps[1].0 in names && ps[2].0 in names;
  }

  // A word that is not the value of the name of a primitive is as it was.
  lemma {:induction false} WordKept(im: Image, w: World, ids: map<Name, nat>, names: set<Name>, globals: seq<Name>,
                                    s1: Store, s2: Store, ps: Primitives, k: Code, j: nat)
    requires IsBooted(im, w, ids, names, globals, s1, s2, ps, k) && j < |im.words| && j < |s2.words|
    requires forall i :: 0 <= i < |ps| ==> ps[i].0 in w.symbols && w.symbols[ps[i].0] != j
    ensures s2.words[j] == im.words[j]
  {
    hide HasNull, HasCode, IsPrimitiveAt, HasSymbols;
  }

  lemma {:induction false} PrimitiveHeld(im: Image, w: World, ids: map<Name, nat>, names: set<Name>, globals: seq<Name>,
                                         s1: Store, s2: Store, ps: Primitives, k: Code, i: nat)
    requires IsBooted(im, w, ids, names, globals, s1, s2, ps, k) && i < |ps|
    ensures ps[i].0 in w.symbols && w.symbols[ps[i].0] < |s2.words|
    ensures IsPrimitiveAt(w, s2.words[w.symbols[ps[i].0]], ps[i].1)
  {
    hide HasNull, HasCode, IsPrimitiveAt, HasSymbols;
  }

  /** What a symbol holds when the program starts. */
  lemma {:induction false} GlobalHolds(im: Image, w: World, ids: map<Name, nat>, names: set<Name>,
                                       globals: seq<Name>, s1: Store, s2: Store, ps: Primitives, k: Code, x: Name)
    requires IsBooted(im, w, ids, names, globals, s1, s2, ps, k) && x in names
    ensures x in w.symbols && w.symbols[x] + 1 < |s2.words|
    ensures IsData(w, PrimitiveOf(ps, x), s2.words[w.symbols[x]])
    ensures s2.words[w.symbols[x] + 1].Tag() == K.SYMBOL_TAG
  {
    hide Booted;
    BootedNames(im, w, ids, names, globals, s1, s2, ps, k);
    var y := w.symbols[x];
    var n := PrimitiveIs(ps, x);
    forall i | 0 <= i < |ps| ensures ps[i].0 in w.symbols && w.symbols[ps[i].0] != y + 1 {
      assert w.symbols[ps[i].0] % 2 == 0;
    }
    WordKept(im, w, ids, names, globals, s1, s2, ps, k, y + 1);
    if IsName(ps, x) {
      PrimitiveHeld(im, w, ids, names, globals, s1, s2, ps, k, n);
    } else {
      forall i | 0 <= i < |ps| ensures ps[i].0 in w.symbols && w.symbols[ps[i].0] != y {
        NameIs(ps, i);
      }
      WordKept(im, w, ids, names, globals, s1, s2, ps, k, y);
    }
  }

  lemma {:induction false} LoadedGrows(w: World, words: seq<Value>, globals: seq<Name>)
    requires CLOSER in w.symbols && w.symbols[CLOSER] < |words| && w.symbols[CLOSER] !in w.fixed
    requires UNBINDER in w.symbols && w.symbols[UNBINDER] < |words| && w.symbols[UNBINDER] !in w.fixed
    requires (forall x :: x in globals ==> x in w.symbols) && w.vars == [] && FixedIn(w, words)
    ensures Grows(w, LoadedWorld(w, words, globals)) && FixedIn(LoadedWorld(w, words, globals), words)
  {
  }

  lemma {:induction false} GlobalIsHeld(im: Image, w: World, ids: map<Name, nat>, names: set<Name>,
                                        globals: seq<Name>, s1: Store, s2: Store, ps: Primitives, k: Code, l: nat)
    requires IsBooted(im, w, ids, names, globals, s1, s2, ps, k) && l < |globals|
    requires CLOSER in w.symbols && w.symbols[CLOSER] < |s2.words| && w.symbols[CLOSER] !in w.fixed
    requires UNBINDER in w.symbols && w.symbols[UNBINDER] < |s2.words| && w.symbols[UNBINDER] !in w.fixed
    requires (forall x :: x in globals ==> x in w.symbols) && FixedIn(w, s2.words)
    ensures HoldsVar(LoadedWorld(w, s2.words, globals), s2.words, Initials(ps, globals), l)
  {
    hide Booted, IsSymbolAt, IsData;
    var x, w' := globals[l], LoadedWorld(w, s2.words, globals);
    BootedNames(im, w, ids, names, globals, s1, s2, ps, k);
    GlobalHolds(im, w, ids, names, globals, s1, s2, ps, k, x);
    LoadedGrows(w, s2.words, globals);
    DataGrows(w, w', PrimitiveOf(ps, x), s2.words[w.symbols[x]]);
  }

  lemma {:induction false} VarsApart(im: Image, w: World, ids: map<Name, nat>, names: set<Name>, globals: seq<Name>,
                                     s1: Store, s2: Store, ps: Primitives, k: Code)
    requires IsBooted(im, w, ids, names, globals, s1, s2, ps, k)
    requires CLOSER in w.symbols && w.symbols[CLOSER] < |s2.words|
    requires UNBINDER in w.symbols && w.symbols[UNBINDER] < |s2.words|
    requires forall x :: x in globals ==> x in w.symbols
    ensures DistinctVars(LoadedWorld(w, s2.words, globals))
  {
    hide Booted, IsSymbolAt;
  }

  lemma {:induction false} BootedNull(im: Image, w: World, ids: map<Name, nat>, names: set<Name>, globals: seq<Name>,
                                      s1: Store, s2: Store, ps: Primitives, k: Code)
    requires IsBooted(im, w, ids, names, globals, s1, s2, ps, k)
    ensures FixedIn(w, s2.words) && |s2.words| % 2 == 0 && s2.no.index == w.no && IsFixed(w, w.no)
    ensures w.fixed[w.no].Pointer? && w.fixed[w.no].cons.index == w.nil && HasCode(w, s2.code.index, k)
    ensures s2.stack.index == s1.stack.index
  {
    hide HasSymbols;
  }

  lemma {:induction false} NamesAreOpen(im: Image, w: World, ids: map<Name, nat>, names: set<Name>,
                                        globals: seq<Name>, s1: Store, s2: Store, ps: Primitives, k: Code, x: Name)
    requires IsBooted(im, w, ids, names, globals, s1, s2, ps, k) && x in names
    ensures x in w.symbols && w.symbols[x] !in w.fixed
  {
    hide Booted, IsSymbolAt;
  }

  /** The heap holds the program's variables and all that generated code relies on. */
  lemma {:induction false} LoadedHolds(im: Image, w: World, ids: map<Name, nat>, names: set<Name>,
                                       globals: seq<Name>, s1: Store, s2: Store, ps: Primitives, k: Code)
    requires IsBooted(im, w, ids, names, globals, s1, s2, ps, k)
    ensures CLOSER in w.symbols && w.symbols[CLOSER] < |s2.words|
    ensures UNBINDER in w.symbols && w.symbols[UNBINDER] < |s2.words|
    ensures forall x :: x in globals ==> x in w.symbols
    ensures var p := LoadedPoint(w, s2, ps, globals); Holds(p) && Grows(w, p.w)
  {
    hide Booted, IsSymbolAt, IsData, HasPrimitive, HoldsVar, IsPrimitive, HasSymbols, HasCode, DistinctVars,
         IsPrimitiveAt;
    BootedNames(im, w, ids, names, globals, s1, s2, ps, k);
    BootedNull(im, w, ids, names, globals, s1, s2, ps, k);
    NamesAreOpen(im, w, ids, names, globals, s1, s2, ps, k, CLOSER);
    NamesAreOpen(im, w, ids, names, globals, s1, s2, ps, k, UNBINDER);
    LoadedGrows(w, s2.words, globals);
    VarsApart(im, w, ids, names, globals, s1, s2, ps, k);
    var p := LoadedPoint(w, s2, ps, globals);
    forall l | 0 <= l < |p.st| ensures HoldsVar(p.w, p.s.words, p.st, l) {
      GlobalIsHeld(im, w, ids, names, globals, s1, s2, ps, k, l);
    }
    NamedHolds(w, p.w, s2.words, CLOSER, Machine.CLOSE);
    NamedHolds(w, p.w, s2.words, UNBINDER, Machine.UNBIND);
  }

  lemma {:induction false} NamedHolds(w: World, w': World, words: seq<Value>, x: Name, id: int)
    requires x in w.symbols && w.symbols[x] % 2 == 0 && w.symbols[x] < |words|
    requires IsPrimitiveAt(w, words[w.symbols[x]], id) && Grows(w, w')
    requires w.symbols[x] in w'.fixed && w'.fixed[w.symbols[x]] == words[w.symbols[x]]
    ensures HasPrimitive(w', x, id)
  {
  }

  /** The machine is ready to run the program. */
  lemma {:induction false} ProgramIsLoaded(im: Image, w: World, ids: map<Name, nat>, names: set<Name>,
                                           globals: seq<Name>, s1: Store, s2: Store, ps: Primitives, e: Expr)
    returns (p: Point)
    requires IsBooted(im, w, ids, names, globals, s1, s2, ps, Compile([], e, Return)) && Analyzed({}, e)
    requires HasFrame(w, s1.stack.index, 0, Caller(w.nil, w.nil))
    ensures p.s == s2 && p.st == Initials(ps, globals) && Programs.IsLoaded(p, e, EnvOf(globals))
  {
    hide IsBooted, Compile, Holds, HasCode, HasFrame, Analyzed, Initials;
    var k := Compile([], e, Return);
    LoadedHolds(im, w, ids, names, globals, s1, s2, ps, k);
    BootedNull(im, w, ids, names, globals, s1, s2, ps, k);
    p := LoadedPoint(w, s2, ps, globals);
    CodeGrows(w, p.w, s2.code.index, k);
    FrameGrows(w, p.w, s1.stack.index, 0, Caller(w.nil, w.nil));
    NoLinks(p.w);
    GlobalsInEnv(p.w, w, s2.words, globals, p.s.stack.index, Free(e));
    WordsAreThere(p);
  }

  lemma {:induction false} WordsAreThere(p: Point)
    requires Holds(p)
    ensures |p.s.words| > 0
  {
  }

  lemma {:induction false} GlobalsInEnv(w': World, w: World, words: seq<Value>, globals: seq<Name>, stack: nat,
                                        names: set<Name>)
    requires CLOSER in w.symbols && w.symbols[CLOSER] < |words|
    requires UNBINDER in w.symbols && w.symbols[UNBINDER] < |words|
    requires (forall x :: x in globals ==> x in w.symbols) && w' == LoadedWorld(w, words, globals)
    ensures HasEnv(w', [], stack, EnvOf(globals), names)
  {
    var env := EnvOf(globals);
    forall x | x in names && x in env
      ensures env[x] < |w'.vars| && VariableCell(w', [], stack, x) == w'.vars[env[x]]
    {
      assert CodeGenerator.IndexOf([], x) == -1 && globals[env[x]] == x;
    }
  }

  // ----- from an expression to its value -----

  /** A program before marshalling: the code of an expression after naming the primitives, and its variables. */
  ghost predicate IsCompiled(p: M.Source, ids: map<Name, nat>, code: M.Code, e: Expr, globals: seq<Name>) {
    && M.IsSource(p) && M.CodeFits(p, |p.nops|, code) && Means(p, ids, code, Compile([], e, Return))
    && (forall i :: 0 <= i < |PRIMITIVES| ==> PRIMITIVES[i].0 in ids && ids[PRIMITIVES[i].0] < |p.names|)
    && (forall x, y :: x in ids && y in ids && ids[x] == ids[y] ==> x == y)
    && Compilable(e) && Analyzed({}, e) && AreGlobals(globals, Free(e))
  }

  // All names of a program.
  ghost function AllNames(ps: Primitives, globals: seq<Name>): set<Name> {
    (set x | x in globals) + (set i | 0 <= i < |ps| :: ps[i].0)
  }

  lemma {:induction false} AllAreSymbols(p: M.Source, im: Image, ids: map<Name, nat>, e: Expr, ps: Primitives,
                                         globals: seq<Name>)
    requires forall i :: 0 <= i < |ps| ==> IsSymbolAt(im, ids, ps[i].0)
    requires forall x :: x in Globals.Mentions(Compile([], e, Return)) ==> IsSymbolAt(im, ids, x)
    requires Compilable(e) && forall x :: x in globals ==> x in Free(e) || IsName(ps, x)
    ensures forall x :: x in AllNames(ps, globals) ==> IsSymbolAt(im, ids, x)
  {
    hide IsSymbolAt, Compile, Globals.Mentions, PrimitiveOf;
    forall x | x in globals ensures IsSymbolAt(im, ids, x) {
      if IsName(ps, x) {
        var i := PrimitiveIs(ps, x);
      } else {
        Compilation.FreeIsNotOperator(e);
        Globals.FreeIsMentioned([], e, Return, x);
      }
    }
  }

  /** After initialization the machine is about to name the primitives. */
  ghost predicate IsInitialized(im: Image, w: World, ids: map<Name, nat>, s1: Store, names: set<Name>,
                                globals: seq<Name>, k: Code) {
    && HasNull(w, s1) && HasBoot(w, s1.code.index, PRIMITIVES, k) && im.words <= s1.words
    && HasFrame(w, s1.stack.index, 0, Caller(w.nil, w.nil)) && HasSymbols(im, w, ids, names)
    && Has(im, M.Boolean(false)) && w.no == CellOf(im, M.Boolean(false)) && w.vars == []
    && w.no % 2 == 0 && w.nil % 2 == 0 && w.nil + 1 < |im.words| && w.nil != w.no
    && IsOther(w, w.no) && IsOther(w, w.nil)
    && (forall i :: 0 <= i < |PRIMITIVES| ==> PRIMITIVES[i].0 in names) && (forall x :: x in globals ==> x in names)
    && Distinct(globals) && CLOSER !in globals && UNBINDER !in globals && Continues(k)
  }

  lemma {:induction false} Starts(p: M.Source, im: Image, ids: map<Name, nat>, s: Store, root: R.Ref, a: Cons,
                                  code: M.Code, e: Expr, globals: seq<Name>)
    returns (s1: Store, w: World)
    requires IsCompiled(p, ids, code, e, globals) && im.words == s.words && |s.words| % 2 == 0
    requires IsProgramAt(p, im, ids, root, a, code, Compile([], e, Return))
    ensures Machine.InitializeOf(s, a) == Machine.Run.Ok(s1)
    ensures IsInitialized(im, w, ids, s1, AllNames(PRIMITIVES, globals), globals, Compile([], e, Return))
  {
    hide IsProgramAt, IsImage, Compile, Shows, IsSymbolAt, HasBoot, IsOpen, HasFrame, HasSymbols, FixedIn,
         Machine.InitializeOf, Analyzed, Compilable, Means, M.CodeFits, PrimitiveOf, M.IsSource, Globals.Mentions;
    var k := Compile([], e, Return);
    ConstantsAreThere(p, im, ids, root, a, code, k);
    var w0 := ImageWorld(im, ids, s.words);
    ImageShows(im, ids, s.words);
    ProgramIsAt(p, im, w0, ids, root, a, code, k);
    s1 := Initializes(im, ids, s, a, k);
    w := ImageWorld(im, ids, s1.words);
    ImageShows(im, ids, s1.words);
    ProgramIsAt(p, im, w, ids, root, a, code, k);
    ExpressionContinues([], e, Return);
    AllAreSymbols(p, im, ids, e, PRIMITIVES, globals);
    ImageOf(p, im, ids, root, a, code, k);
    SymbolsAreThere(p, im, ids, s1.words, AllNames(PRIMITIVES, globals));
    Programs.FirstFrameEndsRun(w, s, a, s1);
  }

  /** Initialization and the code that names the primitives make the machine ready for the program. */
  lemma {:induction false} Boots(p: M.Source, im: Image, ids: map<Name, nat>, s: Store, root: R.Ref, a: Cons,
                                 code: M.Code, e: Expr, globals: seq<Name>)
    returns (s1: Store, q: Point)
    requires IsCompiled(p, ids, code, e, globals) && im.words == s.words && |s.words| % 2 == 0
    requires IsProgramAt(p, im, ids, root, a, code, Compile([], e, Return))
    ensures Machine.InitializeOf(s, a) == Machine.Run.Ok(s1)
    ensures Machine.StepsOf(s1, 2 * |PRIMITIVES|) == Machine.Run.Ok(q.s)
    ensures q.st == Initials(PRIMITIVES, globals) && Programs.IsLoaded(q, e, EnvOf(globals))
  {
    hide IsProgramAt, Compile, Booted, HasFrame, HasSymbols, Initials, EnvOf, HasNull, HasBoot, HasNames, AllNames,
         Machine.StepsOf, Machine.InitializeOf, Analyzed, Compilable, Means, M.CodeFits, M.IsSource, Programs.IsLoaded;
    var k, names := Compile([], e, Return), AllNames(PRIMITIVES, globals);
    var w;
    s1, w := Starts(p, im, ids, s, root, a, code, e, globals);
    AllPrimitivesApart();
    NamesAreThere(im, w, ids, names, s1.words, PRIMITIVES);
    var s2 := BootRuns(w, s1, PRIMITIVES, k);
    q := ProgramIsLoaded(im, w, ids, names, globals, s1, s2, PRIMITIVES, e);
  }

  lemma {:induction false} ImageOf(p: M.Source, im: Image, ids: map<Name, nat>, root: R.Ref, a: Cons, code: M.Code,
                                   k: Code)
    requires IsProgramAt(p, im, ids, root, a, code, k)
    ensures IsImage(p, im)
  {
  }

  lemma {:induction false} AllPrimitivesApart()
    ensures forall i, j :: 0 <= i < j < |PRIMITIVES| ==> PRIMITIVES[i].0 != PRIMITIVES[j].0
    ensures |PRIMITIVES| > 2 && PRIMITIVES[1] == (CLOSER, Machine.CLOSE) && PRIMITIVES[2] == (UNBINDER, Machine.UNBIND)
  {
    forall i, j | 0 <= i < j < |PRIMITIVES| ensures PRIMITIVES[i].0 != PRIMITIVES[j].0 {
      PrimitivesApart(i, j);
    }
  }

  // The code of a whole program: the false value, the names of the primitives, and the expression.
  function WholeCode(ids: map<Name, nat>, code: M.Code): M.Code
    requires forall i :: 0 <= i < |PRIMITIVES| ==> PRIMITIVES[i].0 in ids
  {
    M.Instruction(0, M.Boolean(false), BootCode(ids, PRIMITIVES, code))
  }

  /** The bytecode of a program can be written: its numbers fit in 63 bits and its ribs can be numbered. */
  ghost predicate IsWritable(p: M.Source, ids: map<Name, nat>, code: M.Code)
    requires M.IsSource(p) && M.CodeFits(p, |p.nops|, code)
    requires forall i :: 0 <= i < |PRIMITIVES| ==> PRIMITIVES[i].0 in ids && ids[PRIMITIVES[i].0] < |p.names|
  {
    BootCodeFits(p, |p.nops|, ids, PRIMITIVES, code);
    E.Encodable(M.MarshalProgram(p, BootCode(ids, PRIMITIVES, code)).state.g)
  }

  /** Marshalling makes a program that can be loaded. */
  lemma {:induction false} MarshalledIsSource(p: M.Source, ids: map<Name, nat>, code: M.Code, e: Expr,
                                              globals: seq<Name>)
    returns (k: K.Kinds)
    requires IsCompiled(p, ids, code, e, globals) && IsWritable(p, ids, code)
    ensures M.CodeFits(p, |p.nops|, BootCode(ids, PRIMITIVES, code))
    ensures var m := M.MarshalProgram(p, BootCode(ids, PRIMITIVES, code));
            && E.IsSource(m.state.g, m.ref) && K.IsProgram(m.state.g, k, m.ref) && M.Fine(p, m.state, k)
            && C.IsCodeOf(p, |p.nops|, m.state, m.ref, WholeCode(ids, code))
  {
    hide M.Fine, M.MarshalProgram, Means, BootCode, E.Encodable;
    BootCodeFits(p, |p.nops|, ids, PRIMITIVES, code);
    k := M.MarshalledIsProgram(p, BootCode(ids, PRIMITIVES, code));
    C.ProgramIsMade(p, BootCode(ids, PRIMITIVES, code));
  }

  /** The decoded program is an image of the marshalled one. */
  lemma {:induction false} DecodesToImage(p: M.Source, ids: map<Name, nat>, code: M.Code, e: Expr, globals: seq<Name>,
                                          k: K.Kinds, s: Store)
    returns (im: Image)
    requires IsCompiled(p, ids, code, e, globals) && E.IsBlank(s)
    requires M.CodeFits(p, |p.nops|, BootCode(ids, PRIMITIVES, code))
    requires var m := M.MarshalProgram(p, BootCode(ids, PRIMITIVES, code));
             && E.IsSource(m.state.g, m.ref) && K.IsProgram(m.state.g, k, m.ref) && M.Fine(p, m.state, k)
             && C.IsCodeOf(p, |p.nops|, m.state, m.ref, WholeCode(ids, code))
    ensures var m := M.MarshalProgram(p, BootCode(ids, PRIMITIVES, code));
            var tokens := E.ProgramTokens(m.state.g, m.ref);
            && HeapRuns(s, tokens) && E.DecodedOn(s, tokens).0.Pointer?
            && |E.DecodedOn(s, tokens).1.words| % 2 == 0 && im.words == E.DecodedOn(s, tokens).1.words
            && IsProgramAt(p, im, ids, m.ref, E.DecodedOn(s, tokens).0.cons, code, Compile([], e, Return))
  {
    hide M.Fine, M.MarshalProgram, Means, BootCode, E.Encodable, E.ProgramTokens, E.IsCopy, K.Shared, Compile,
         K.IsTypedNode;
    var m := M.MarshalProgram(p, BootCode(ids, PRIMITIVES, code));
    var cell, origin := E.DecodesToCopy(m.state.g, k, m.ref, s);
    im := Image(m.state, k, E.DecodedOn(s, E.ProgramTokens(m.state.g, m.ref)).1.words, origin, cell);
  }

  // Decoding succeeds.
  predicate HeapRuns(s: Store, tokens: seq<Tokens.Token>) {
    HeapDecoding.RunOn(s, tokens).Ok? && Machine.PopOf(HeapDecoding.RunOn(s, tokens).value).Ok?
  }

  /** Marshalling as it runs. */
  method MarshalWhole(p: M.Source, ids: map<Name, nat>, code: M.Code) returns (g: R.Graph, root: R.Ref)
    requires M.IsSource(p) && M.CodeFits(p, |p.nops|, code)
    requires forall i :: 0 <= i < |PRIMITIVES| ==> PRIMITIVES[i].0 in ids && ids[PRIMITIVES[i].0] < |p.names|
    ensures M.CodeFits(p, |p.nops|, BootCode(ids, PRIMITIVES, code))
    ensures var m := M.MarshalProgram(p, BootCode(ids, PRIMITIVES, code)); g == m.state.g && root == m.ref
  {
    BootCodeFits(p, |p.nops|, ids, PRIMITIVES, code);
    var context := new MarshalContexts.MarshalContext();
    root := context.WriteCode(p, |p.nops|, WholeCode(ids, code));
    g := context.g;
  }

  /** Initializes the machine with a decoded program and runs the code that names the primitives. */
  method Boot(p: M.Source, m: Memory, program: Cons, ghost im: Image, ghost root: R.Ref, ghost a: Cons,
              ids: map<Name, nat>, ghost code: M.Code, ghost e: Expr, ghost globals: seq<Name>)
    returns (r: Vms.Report, ghost q: Point)
    requires m.Valid() && ConsMoves(m.loc, a, program) && im.words == m.model.words && |m.model.words| % 2 == 0
    requires IsCompiled(p, ids, code, e, globals)
    requires IsProgramAt(p, im, ids, root, a, code, Compile([], e, Return))
    modifies m, m.heap
    ensures r == Vms.HeapExhausted || r == Vms.Success
    ensures r == Vms.Success ==> m.Valid() && m.model == q.s
    ensures r == Vms.HeapExhausted ==> 2 * m.live == m.SpaceSize()
    ensures q.st == Initials(PRIMITIVES, globals) && Programs.IsLoaded(q, e, EnvOf(globals))
  {
    hide Memory.Valid, IsCompiled, IsProgramAt, Programs.IsLoaded, EnvOf, Initials, Machine.StepsOf,
         Machine.InitializeOf, Compile;
    ghost var s1;
    s1, q := Boots(p, im, ids, m.model, root, a, code, e, globals);
    var made := Vms.Initialize(m, program, a);
    if made.OutOfMemory? {
      return Vms.HeapExhausted, q;
    }
    r := Vms.RunFor(m, 2 * |PRIMITIVES|);
  }

  /** From an expression to its value by way of bytecode: the compiled code is marshalled, encoded and compressed,
      then decompressed and decoded into a new memory, and run there. However often garbage is collected on the
      way, the run ends with the value of the expression on the stack, or with the error of the expression, unless
      the heap is too small to begin with or full of cells that the last collection found reachable. */
  method RunCompiled(p: M.Source, ids: map<Name, nat>, code: M.Code, ghost e: Expr, ghost globals: seq<Name>,
                     ghost depth: nat, words: array<Value>, gcAlways: bool)
    returns (r: Vms.Report, memory: Memory?)
    requires IsCompiled(p, ids, code, e, globals) && IsWritable(p, ids, code) && words.Length % 4 == 0
    requires Eval(depth, e, EnvOf(globals), Initials(PRIMITIVES, globals)) != Undefined
    modifies words
    ensures var o := Eval(depth, e, EnvOf(globals), Initials(PRIMITIVES, globals));
            match r
            case HeapExhausted =>
              if memory == null then words.Length < 8 else 2 * memory.live == memory.SpaceSize()
            case Error(error) => o == Wrong(error)
            case Success =>
              && memory != null && memory.Valid() && memory.heap == words && o.Done?
              && exists low, q :: Programs.IsOutcome(o, low, Machine.Run.Ok(memory.model), q)
  {
    hide Memory.Valid, M.Fine, M.MarshalProgram, BootCode, K.IsProgram, IsProgramAt, Means,
         Programs.IsLoaded, Programs.IsOutcome, Eval, EnvOf, Initials, Compile, Analyzed, Compilable, AreGlobals,
         E.ProgramTokens, HeapDecoding.RunOn, Machine.PopOf, E.Encodable, C.IsCodeOf, M.CodeFits, M.IsSource;
    ghost var k := MarshalledIsSource(p, ids, code, e, globals);
    var g, root := MarshalWhole(p, ids, code);
    var loaded;
    memory, loaded := E.Load(g, k, root, words, gcAlways);
    if loaded.OutOfMemory? {
      return Vms.HeapExhausted, memory;
    }
    var program := loaded.value;
    ghost var im := DecodesToImage(p, ids, code, e, globals, k, Memories.Blank());
    ghost var v := E.DecodedOn(Memories.Blank(), E.ProgramTokens(g, root)).0;
    ghost var q;
    r, q := Boot(p, memory, program, im, root, v.cons, ids, code, e, globals);
    if r == Vms.Success {
      ghost var t;
      r, t := Programs.RunProgram(memory, depth, e, EnvOf(globals), q);
    }
  }
}
