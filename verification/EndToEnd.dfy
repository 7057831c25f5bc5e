/** The bytecode format from end to end: a rib graph is counted, encoded and compressed, and then
    decompressed and decoded on a garbage-collected heap. */
module EndToEnd {
  import opened IntegerCodes
  import opened Stores
  import opened RibGraphs
  import opened RibTokens
  import opened Encoding
  import opened HeapDecoding
  import opened Distinctness
  import Counting
  import Sharing
  import opened Memories
  import Lzss
  import Machine
  import Encoders
  import Decoders
  import Decompressors

  // ----- everything the encoder emits can be written -----

  /** Tags have 16 bits, numbers 63, and ribs can be numbered. */
  ghost predicate Encodable(g: Graph) {
    && |g| < INDEX_LIMIT
    && forall i :: 0 <= i < |g| ==>
         g[i].tag < TAG_LIMIT && (g[i].car.Int? ==> IsNumber(g[i].car.n)) && (g[i].cdr.Int? ==> IsNumber(g[i].cdr.n))
  }

  ghost predicate FitsIn(d: seq<nat>, n: nat) {
    Distinct(d) && forall i :: 0 <= i < |d| ==> d[i] < n
  }

  /** Encoding a value enters no later rib into the dictionary. */
  lemma {:induction false} EntersNoLater(g: Graph, r: Ref, c: Context, i: nat)
    requires Acyclic(g) && NopsLeadToRibs(g) && Below(r, |g|) && Below(r, i) && i !in c.dictionary
    ensures i !in Encode(g, r, c).context.dictionary
    decreases if r.Rib? then r.id + 1 else 0
  {
    if r.Rib? {
      var id := Strip(g, r).id;
      if !(id in c.counts && id in c.dictionary) {
        EntersNoLater(g, g[id].car, c, i);
        EntersNoLater(g, g[id].cdr, Encode(g, g[id].car, c).context, i);
      }
    }
  }

  lemma {:induction false} UseFits(d: seq<nat>, index: nat, keep: bool, n: nat)
    requires FitsIn(d, n) && index < |d|
    ensures FitsIn(Use(d, index, keep), n)
  {
    Counting.UseKeepsDistinct(d, index, keep);
    UseLength(d, index, keep);
    var e := Use(d, index, keep);
    forall i | 0 <= i < |e| ensures e[i] < n {
      UseAt(d, index, keep, i);
    }
  }

  lemma {:induction false} EncodesWritable(g: Graph, r: Ref, c: Context)
    requires Acyclic(g) && NopsLeadToRibs(g) && Encodable(g) && Below(r, |g|) && FitsIn(c.dictionary, |g|)
    requires r.Int? ==> IsNumber(r.n)
    ensures var e := Encode(g, r, c);
            FitsIn(e.context.dictionary, |g|) && forall t <- e.tokens :: Writable(t)
    decreases if r.Rib? then r.id + 1 else 0
  {
    if r.Rib? {
      var id := Strip(g, r).id;
      if id in c.counts && id in c.dictionary {
        EncodeEntry(g, r, c);
        var index := IndexOf(c.dictionary, id);
        DistinctBelow(c.dictionary, |g|);
        UseFits(c.dictionary, index, Decrement(c.counts, id)[id] != 0, |g|);
      } else {
        var car := Encode(g, g[id].car, c);
        EncodesWritable(g, g[id].car, c);
        EncodesWritable(g, g[id].cdr, car.context);
        EncodeFields(g, r, c);
        if id in c.counts {
          EntersNoLater(g, g[id].car, c, id);
          EntersNoLater(g, g[id].cdr, car.context, id);
        }
      }
    }
  }

  // ----- decompression gives the tokens back -----

  lemma {:induction false} DecompressesToTokens(tokens: seq<Token>)
    requires forall t <- tokens :: Writable(t)
    ensures Lzss.Decompress(Lzss.Start(Lzss.CompressList(Bytes(tokens)), Lzss.MAX_WINDOW_SIZE), Lzss.MAX_WINDOW_SIZE)
            == Bytes(tokens)
  {
    Lzss.ListRoundTrip(Bytes(tokens));
    Lzss.MaskIsIdentityIffSevenBits(Bytes(tokens));
  }

  // ----- the tree in the heap -----

  /** A value of a heap is a tree: tags are kept in the pointers of `cdr` fields. */
  ghost predicate IsTree(words: seq<Value>, v: Value, t: Tree)
    decreases t
  {
    match t
    case Leaf(n) => v == Number(n)
    case Branch(car, cdr, tag) =>
      && v.Pointer? && v.cons.index % 2 == 0 && v.cons.index + 1 < |words|
      && words[v.cons.index + 1].Tag() == tag
      && IsTree(words, words[v.cons.index], car) && IsTree(words, words[v.cons.index + 1], cdr)
  }

  lemma {:induction false} TreeIgnoresTag(words: seq<Value>, v: Value, tag: nat, t: Tree)
    requires IsTree(words, v, t)
    ensures IsTree(words, v.SetTag(tag), t)
  {
  }

  lemma {:induction false} HeldTree(s: Store, m: RibMachine, l: Layout, r: Ref)
    requires Holds(s, m, l) && Below(r, |m.ribs|) && TagsFit(m.ribs)
    ensures IsTree(s.words, ValueOf(l.ribs, r), Unfold(m.ribs, r))
    decreases if r.Rib? then r.id + 1 else 0
  {
    if r.Rib? {
      var node := m.ribs[r.id];
      assert HasCell(s.words, l.ribs[r.id], ValueOf(l.ribs, node.car), ValueOf(l.ribs, node.cdr).SetTag(node.tag));
      HeldTree(s, m, l, node.car);
      HeldTree(s, m, l, node.cdr);
      TreeIgnoresTag(s.words, ValueOf(l.ribs, node.cdr), node.tag, Unfold(m.ribs, node.cdr));
    }
  }

  // The stack machine never gives a number a tag.
  ghost predicate TagsFit(ribs: Graph) {
    forall i :: 0 <= i < |ribs| && ribs[i].cdr.Int? ==> ribs[i].tag == 0
  }

  lemma {:induction false} RunKeepsTagsFit(m: RibMachine, tokens: seq<Token>)
    requires CanRun(m, tokens) && TagsFit(m.ribs)
    ensures TagsFit(Run(m, tokens).ribs)
    decreases |tokens|
  {
    if tokens != [] {
      RunKeepsTagsFit(Step(m, tokens[0]), tokens[1..]);
    }
  }

  // ----- end to end -----

  /** A memory before decoding: the stack and the dictionary are empty lists. */
  ghost predicate IsBlank(s: Store) {
    |s.words| % 2 == 0 && s.stack == NEVER && s.code == NEVER
  }

  const NOTHING := RibMachine([], [], [])

  lemma {:induction false} BlankHoldsNothing(s: Store)
    requires IsBlank(s)
    ensures Holds(s, NOTHING, Layout([], [], []))
  {
  }

  /** The tokens of a program. */
  function ProgramTokens(g: Graph, root: Ref): seq<Token>
    requires Acyclic(g) && NopsLeadToRibs(g) && Below(root, |g|) && Counting.HasNull(g, root)
  {
    Encode(g, root, Counting.StartContext(g, root)).tokens
  }

  ghost predicate IsSource(g: Graph, root: Ref) {
    && Acyclic(g) && NopsLeadToRibs(g) && WellTagged(g) && Encodable(g)
    && Below(root, |g|) && Counting.HasNull(g, root)
  }

  lemma {:induction false} ProgramIsWritable(g: Graph, root: Ref)
    requires IsSource(g, root)
    ensures forall t <- ProgramTokens(g, root) :: Writable(t)
  {
    EncodesWritable(g, root, Counting.StartContext(g, root));
  }

  /** The popped result of decoding a program is a value with the program's tree, nops stripped. */
  ghost predicate DecodesTo(s: Store, tokens: seq<Token>, t: Tree) {
    var r := RunOn(s, tokens);
    && r.Ok? && var popped := Machine.PopOf(r.value);
       && popped.Ok? && popped.value.0.Pointer?
       && IsTree(popped.value.1.words, popped.value.0, t)
  }

  lemma {:induction false} PopDecoded(s: Store, m: RibMachine, l: Layout)
    requires Holds(s, m, l) && |m.stack| == 1
    ensures Below(m.stack[0], |l.ribs|)
    ensures Machine.PopOf(s) == Machine.Ok((ValueOf(l.ribs, m.stack[0]), s.(stack := NEVER)))
  {
    StackCell(s.words, m, l, 0);
  }

  lemma {:induction false} ProgramDecodes(g: Graph, root: Ref, s: Store)
    requires IsSource(g, root) && IsBlank(s)
    ensures DecodesTo(s, ProgramTokens(g, root), TreeOf(g, root))
  {
    hide Holds, Run, CanRun, RunOn, Encode, IsTree, Counting.StartContext, TreeOf, Encodable;
    var tokens, c := ProgramTokens(g, root), Counting.StartContext(g, root);
    StartsEmpty(g, root);
    DecodeInvertsEncode(g, root, c, NOTHING);
    BlankHoldsNothing(s);
    var l := RunHolds(s, NOTHING, Layout([], [], []), tokens);
    var m' := Run(NOTHING, tokens);
    PopDecoded(RunOn(s, tokens).value, m', l);
    RunKeepsTagsFit(NOTHING, tokens);
    HeldTree(RunOn(s, tokens).value, m', l, m'.stack[0]);
    TreeOfProgram(g, root);
    assert Unfold(m'.ribs, m'.stack[0]).Branch?;
  }

  /** From a rib graph to bytes and back: decompressing the compressed bytes of a program gives its tokens,
      and decoding those on a blank memory gives a value with the program's tree. */
  lemma {:induction false} BytecodeRoundTrip(g: Graph, root: Ref, s: Store)
    requires IsSource(g, root) && IsBlank(s)
    ensures var tokens := ProgramTokens(g, root);
            && (forall t <- tokens :: Writable(t))
            && Lzss.Decompress(Lzss.Start(Lzss.CompressList(Bytes(tokens)), Lzss.MAX_WINDOW_SIZE),
                               Lzss.MAX_WINDOW_SIZE) == Bytes(tokens)
            && DecodesTo(s, tokens, TreeOf(g, root))
  {
    hide Lzss.Decompress, Lzss.CompressList, Bytes, Writable, DecodesTo, IsBlank, TreeOf;
    ProgramIsWritable(g, root);
    DecompressesToTokens(ProgramTokens(g, root));
    ProgramDecodes(g, root, s);
  }

  lemma {:induction false} TreeOfProgram(g: Graph, root: Ref)
    requires IsSource(g, root)
    ensures TreeOf(g, root).Branch?
  {
  }

  /** The decoded heap of a well-typed program is a copy in which every shared rib is one cell, however often it
      occurs, and every cell has been copied from one rib. */
  lemma {:induction false} BytecodeKeepsSharing(g: Graph, k: Counting.Kinds, root: Ref, s: Store)
    returns (m: RibMachine, l: Layout, cell: map<nat, nat>, origin: seq<nat>)
    requires Counting.IsProgram(g, k, root) && IsBlank(s)
    ensures RunOn(s, ProgramTokens(g, root)).Ok? && Holds(RunOn(s, ProgramTokens(g, root)).value, m, l)
    ensures |m.stack| == 1 && m.dictionary == [] && |origin| == |m.ribs|
    ensures Sharing.Copies(g, m.ribs, origin, Counting.Shared(g, k), cell, root, m.stack[0])
    ensures forall id :: id in cell ==> cell[id] < |origin| && origin[cell[id]] == id
  {
    hide Holds, Run, CanRun, RunOn, Encode, Sharing.Copies, Counting.StartContext, Counting.OnCount,
         Sharing.PushesCopy, Counting.Walk, Counting.IsTypedNode, Counting.Shared;
    var tokens, c, shared := ProgramTokens(g, root), Counting.StartContext(g, root), Counting.Shared(g, k);
    Counting.StartOnCount(g, k, root);
    var hits := Counting.Walk(g, root, shared, {}).hits;
    assert hits + multiset{} == hits;
    StartsEmpty(g, root);
    cell, origin := Sharing.ShareEncode(g, root, c, NOTHING, shared, {}, multiset{}, map[], []);
    BlankHoldsNothing(s);
    l := RunHolds(s, NOTHING, Layout([], [], []), tokens);
    Counting.EncodingUsesUpCounts(g, k, root);
    Sharing.CopyPushed(g, root, NOTHING, Encode(g, root, c), shared, Counting.Walk(g, root, shared, {}).seen, map[],
                       cell, [], origin);
    m := Run(NOTHING, tokens);
  }

  lemma {:induction false} StartsEmpty(g: Graph, root: Ref)
    requires Acyclic(g) && NopsLeadToRibs(g) && Below(root, |g|) && Counting.HasNull(g, root)
    ensures Counting.StartContext(g, root).dictionary == []
  {
  }

  // ----- on a real memory -----

  lemma {:induction false} TreeMoves(f: map<nat, nat>, a: Store, b: Store, v: Value, w: Value, t: Tree)
    requires Iso(f, a, b) && ValueMoves(f, v, w) && IsTree(a.words, v, t)
    ensures IsTree(b.words, w, t)
    decreases t
  {
    if t.Branch? {
      var i := v.cons.index;
      assert CellMoves(f, a.words, b.words, i);
      TreeMoves(f, a, b, a.words[i], b.words[f[i]], t.car);
      TreeMoves(f, a, b, a.words[i + 1], b.words[f[i] + 1], t.cdr);
    }
  }

  /** A value of a heap is a copy of a rib, nops stripped. Every occurrence of a shared rib is the cell that `cell`
      names, and `origin` says which rib each cell has been copied from. */
  ghost predicate IsCopy(g: Graph, words: seq<Value>, origin: map<nat, nat>, shared: set<nat>, cell: map<nat, nat>,
                         r: Ref, v: Value)
    requires Acyclic(g) && NopsLeadToRibs(g) && Below(r, |g|)
    decreases if r.Rib? then r.id + 1 else 0
  {
    match r
    case Int(n) => v == Number(n)
    case Rib(_) =>
      var id := Strip(g, r).id;
      && v.Pointer? && v.cons.index % 2 == 0 && v.cons.index + 1 < |words|
      && v.cons.index in origin && origin[v.cons.index] == id
      && (id in shared ==> id in cell && v.cons.index == cell[id])
      && words[v.cons.index + 1].Tag() == g[id].tag
      && IsCopy(g, words, origin, shared, cell, g[id].car, words[v.cons.index])
      && IsCopy(g, words, origin, shared, cell, g[id].cdr, words[v.cons.index + 1])
  }

  /** The cells of shared ribs have been copied from them, so different ones are different cells. */
  ghost predicate CellsComeFrom(origin: map<nat, nat>, cell: map<nat, nat>) {
    forall id :: id in cell ==> cell[id] in origin && origin[cell[id]] == id
  }

  // The cells of ribs in the heap.
  function Placed(ribs: seq<nat>, cell: map<nat, nat>): map<nat, nat> {
    map id | id in cell && cell[id] < |ribs| :: ribs[cell[id]]
  }

  // What each cell has been copied from.
  ghost function Origins(ribs: seq<nat>, origin: seq<nat>): (m: map<nat, nat>)
    requires Distinct(ribs) && |ribs| == |origin|
    ensures forall i :: 0 <= i < |ribs| ==> ribs[i] in m && m[ribs[i]] == origin[i]
  {
    if ribs == [] then map[]
    else
      var n := |ribs| - 1;
      Origins(ribs[..n], origin[..n])[ribs[n] := origin[n]]
  }

  lemma {:induction false} CopyIgnoresTag(g: Graph, words: seq<Value>, origin: map<nat, nat>, shared: set<nat>,
                                          cell: map<nat, nat>, r: Ref, v: Value, tag: nat)
    requires Acyclic(g) && NopsLeadToRibs(g) && Below(r, |g|) && IsCopy(g, words, origin, shared, cell, r, v)
    ensures IsCopy(g, words, origin, shared, cell, r, v.SetTag(tag))
  {
  }

  lemma {:induction false} HeldCopy(g: Graph, s: Store, m: RibMachine, l: Layout, origin: seq<nat>, shared: set<nat>,
                                    cell: map<nat, nat>, r: Ref, w: Ref)
    requires Acyclic(g) && NopsLeadToRibs(g) && WellTagged(g) && Below(r, |g|) && Distinct(l.ribs)
    requires Holds(s, m, l) && Below(w, |m.ribs|) && |origin| == |l.ribs| == |m.ribs|
    requires Sharing.Copies(g, m.ribs, origin, shared, cell, r, w)
    ensures IsCopy(g, s.words, Origins(l.ribs, origin), shared, Placed(l.ribs, cell), r, ValueOf(l.ribs, w))
    decreases if r.Rib? then r.id + 1 else 0
  {
    hide WellTagged, HoldsStack, HoldsDictionary, Separate, NopsLeadToRibs, Distinct, Origins;
    if r.Rib? {
      Sharing.StripIsRib(g, r);
      var id, node, from, to := Strip(g, r).id, m.ribs[w.id], Origins(l.ribs, origin), Placed(l.ribs, cell);
      assert HasCell(s.words, l.ribs[w.id], ValueOf(l.ribs, node.car), ValueOf(l.ribs, node.cdr).SetTag(node.tag));
      HeldCopy(g, s, m, l, origin, shared, cell, g[id].car, node.car);
      HeldCopy(g, s, m, l, origin, shared, cell, g[id].cdr, node.cdr);
      CopyIgnoresTag(g, s.words, from, shared, to, g[id].cdr, ValueOf(l.ribs, node.cdr), node.tag);
      CopiedTag(g, m.ribs, origin, shared, cell, id, w.id);
    }
  }

  lemma {:induction false} CopiedTag(g: Graph, h: Graph, origin: seq<nat>, shared: set<nat>, cell: map<nat, nat>,
                                     id: nat, w: nat)
    requires Acyclic(g) && NopsLeadToRibs(g) && WellTagged(g) && id < |g| && w < |h|
    requires Sharing.Copies(g, h, origin, shared, cell, g[id].cdr, h[w].cdr)
    requires h[w].tag == TagOf(h[w].cdr, g[id].tag)
    ensures h[w].cdr.Int? ==> g[id].tag == 0
    ensures h[w].cdr.Rib? ==> h[w].tag == g[id].tag
  {
  }

  // What the cells of another heap have been copied from.
  ghost function MovedOrigins(origin: map<nat, nat>, f: map<nat, nat>): (m: map<nat, nat>)
    requires Injective(f)
    ensures forall i :: i in f && i in origin ==> f[i] in m && m[f[i]] == origin[i]
  {
    assert forall i :: i in f ==> f[i] in f.Values && Preimage(f, f[i]) == i;
    map j | j in f.Values && Preimage(f, j) in origin :: origin[Preimage(f, j)]
  }

  ghost function Preimage(f: map<nat, nat>, j: nat): (i: nat)
    requires j in f.Values
    ensures i in f && f[i] == j
  {
    var i :| i in f && f[i] == j;
    i
  }

  lemma {:induction false} CopyMoves(g: Graph, f: map<nat, nat>, a: Store, b: Store, origin: map<nat, nat>,
                                     shared: set<nat>, cell: map<nat, nat>, r: Ref, v: Value, w: Value)
    requires Acyclic(g) && NopsLeadToRibs(g) && Below(r, |g|)
    requires Iso(f, a, b) && ValueMoves(f, v, w) && IsCopy(g, a.words, origin, shared, cell, r, v)
    ensures IsCopy(g, b.words, MovedOrigins(origin, f), shared, Compose(cell, f), r, w)
    decreases if r.Rib? then r.id + 1 else 0
  {
    hide NopsLeadToRibs, MovedOrigins;
    if r.Rib? {
      Sharing.StripIsRib(g, r);
      var id, i := Strip(g, r).id, v.cons.index;
      assert CellMoves(f, a.words, b.words, i);
      CopyMoves(g, f, a, b, origin, shared, cell, g[id].car, a.words[i], b.words[f[i]]);
      CopyMoves(g, f, a, b, origin, shared, cell, g[id].cdr, a.words[i + 1], b.words[f[i] + 1]);
    }
  }

  /** Decoding a well-typed program leaves a copy of it whose shared ribs are cells of their own. */
  lemma {:induction false} DecodesToCopy(g: Graph, k: Counting.Kinds, root: Ref, s: Store)
    returns (cell: map<nat, nat>, origin: map<nat, nat>)
    requires IsSource(g, root) && Counting.IsProgram(g, k, root) && IsBlank(s)
    ensures var r := RunOn(s, ProgramTokens(g, root));
            && r.Ok? && Machine.PopOf(r.value).Ok? && CellsComeFrom(origin, cell)
            && var popped := Machine.PopOf(r.value).value;
               && |popped.1.words| % 2 == 0 && popped.0.Pointer?
               && IsCopy(g, popped.1.words, origin, Counting.Shared(g, k), cell, root, popped.0)
  {
    hide Holds, RunOn, Sharing.Copies, IsCopy, Counting.Shared, Counting.IsTypedNode, Encode, Separate;
    var m, l, ribs, from := BytecodeKeepsSharing(g, k, root, s);
    var s' := RunOn(s, ProgramTokens(g, root)).value;
    PopDecoded(s', m, l);
    HeldCells(s', m, l);
    HeldCopy(g, s', m, l, from, Counting.Shared(g, k), ribs, root, m.stack[0]);
    cell, origin := Placed(l.ribs, ribs), Origins(l.ribs, from);
    CopyIsPointer(g, s'.words, origin, Counting.Shared(g, k), cell, root, ValueOf(l.ribs, m.stack[0]));
  }

  lemma {:induction false} CopyIsPointer(g: Graph, words: seq<Value>, origin: map<nat, nat>, shared: set<nat>,
                                         cell: map<nat, nat>, r: Ref, v: Value)
    requires Acyclic(g) && NopsLeadToRibs(g) && Below(r, |g|) && IsCopy(g, words, origin, shared, cell, r, v) && r.Rib?
    ensures v.Pointer?
  {
  }

  lemma {:induction false} HeldCells(s: Store, m: RibMachine, l: Layout)
    requires Holds(s, m, l)
    ensures Distinct(l.ribs) && |l.ribs| == |m.ribs| && |s.words| % 2 == 0
  {
  }

  // The value that decoding leaves on the stack, and the heap without it.
  function DecodedOn(s: Store, tokens: seq<Token>): (Value, Store)
    requires RunOn(s, tokens).Ok? && Machine.PopOf(RunOn(s, tokens).value).Ok?
  {
    Machine.PopOf(RunOn(s, tokens).value).value
  }

  /** Compiles a program to bytecode and loads it into a new memory, however often the collector runs meanwhile,
      and however small the heap is. */
  method Load(g: Graph, ghost k: Counting.Kinds, root: Ref, words: array<Value>, gcAlways: bool)
    returns (memory: Memory?, r: Result<Cons>)
    requires IsSource(g, root) && Counting.IsProgram(g, k, root) && words.Length % 4 == 0
    modifies words
    ensures RunOn(Blank(), ProgramTokens(g, root)).Ok?
    ensures Machine.PopOf(RunOn(Blank(), ProgramTokens(g, root)).value).Ok?
    ensures r.OutOfMemory? ==> if memory == null then words.Length < 8 else 2 * memory.live == memory.SpaceSize()
    ensures r.Ok? ==>
      var (v, s) := DecodedOn(Blank(), ProgramTokens(g, root));
      && memory != null && fresh(memory) && memory.heap == words && memory.Valid()
      && memory.model == s && ValueMoves(memory.loc, v, Pointer(r.value))
  {
    hide Memory.Valid, Encode, Bytes, IsTree, Lzss.Decompress, Lzss.CompressList, RunOn, Counting.StartContext,
         Counting.IsProgram, TreeOf, Iso;
    BytecodeRoundTrip(g, root, Blank());
    Counting.EncodingUsesUpCounts(g, k, root);
    var bytecode := Encoders.EncodeProgram(g, root);
    var made := Memory.New(words, gcAlways);
    if made.OutOfMemory? {
      return null, OutOfMemory;
    }
    memory := made.value;
    var input := new Decompressors.Decompressor(Lzss.MAX_WINDOW_SIZE, bytecode.bytes);
    r := Decoders.DecodeRibs(memory, input, ProgramTokens(g, root));
  }

  /** A load that does not run out of memory leaves the program's tree in the heap, and each shared rib is one cell
      of it. */
  method Transfer(g: Graph, ghost k: Counting.Kinds, root: Ref, words: array<Value>, gcAlways: bool)
    returns (r: Result<(Memory, Cons)>, ghost cell: map<nat, nat>, ghost origin: map<nat, nat>)
    requires IsSource(g, root) && Counting.IsProgram(g, k, root) && words.Length % 4 == 0
    modifies words
    ensures r.Ok? ==>
      var (memory, program) := r.value;
      && fresh(memory) && memory.heap == words && memory.Valid()
      && IsTree(words[..], Pointer(program), TreeOf(g, root))
      && IsCopy(g, words[..], origin, Counting.Shared(g, k), cell, root, Pointer(program))
      && CellsComeFrom(origin, cell)
  {
    hide Memory.Valid, Encode, Bytes, IsTree, RunOn, Counting.IsProgram, TreeOf, Iso, IsCopy, Counting.Shared,
         CellsComeFrom, ProgramTokens;
    BytecodeRoundTrip(g, root, Blank());
    ghost var cells, from := DecodesToCopy(g, k, root, Blank());
    cell, origin := map[], map[];
    var memory, loaded := Load(g, k, root, words, gcAlways);
    if loaded.OutOfMemory? {
      r := OutOfMemory;
    } else {
      var program := loaded.value;
      r := Result.Ok((memory, program));
      ghost var v := DecodedOn(Blank(), ProgramTokens(g, root)).0;
      InHeap(memory, v, Pointer(program), TreeOf(g, root));
      cell, origin := CopyInHeap(memory, g, from, Counting.Shared(g, k), cells, root, v, Pointer(program));
    }
  }

  lemma {:induction false} InHeap(m: Memory, v: Value, w: Value, t: Tree)
    requires m.Valid() && ValueMoves(m.loc, v, w) && IsTree(m.model.words, v, t)
    ensures IsTree(m.heap[..], w, t)
  {
    TreeMoves(m.loc, m.model, m.View(), v, w, t);
  }

  lemma {:induction false} CopyInHeap(m: Memory, g: Graph, origin: map<nat, nat>, shared: set<nat>,
                                      cell: map<nat, nat>, r: Ref, v: Value, w: Value)
    returns (cell': map<nat, nat>, origin': map<nat, nat>)
    requires Acyclic(g) && NopsLeadToRibs(g) && Below(r, |g|) && CellsComeFrom(origin, cell)
    requires m.Valid() && ValueMoves(m.loc, v, w) && IsCopy(g, m.model.words, origin, shared, cell, r, v)
    ensures IsCopy(g, m.heap[..], origin', shared, cell', r, w) && CellsComeFrom(origin', cell')
  {
    CopyMoves(g, m.loc, m.model, m.View(), origin, shared, cell, r, v, w);
    cell', origin' := Compose(cell, m.loc), MovedOrigins(origin, m.loc);
  }
}
