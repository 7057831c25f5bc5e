/** The encoder of `compile.scm` as a function, the decoder of `vm/src/vm.rs` as a stack machine over
    ribs, and the round trip between them. */
module Encoding {
  import opened RibGraphs
  import opened RibTokens

  // ----- encoder -----

  /** The dictionary, last used entry first, and how often each counted rib is still to be met. */
  datatype Context = Context(dictionary: seq<nat>, counts: map<nat, int>)

  function IndexOf(dictionary: seq<nat>, id: nat): (index: nat)
    requires id in dictionary
    ensures index < |dictionary| && dictionary[index] == id && id !in dictionary[..index]
  {
    if dictionary[0] == id then 0 else 1 + IndexOf(dictionary[1..], id)
  }

  function Remove<T>(xs: seq<T>, index: nat): (ys: seq<T>)
    requires index < |xs|
    ensures |ys| == |xs| - 1
  {
    xs[..index] + xs[index + 1..]
  }

  function Decrement(counts: map<nat, int>, id: nat): map<nat, int>
    requires id in counts
  {
    counts[id := counts[id] - 1]
  }

  /** The dictionary after the entry at `index` was used. */
  function Use<T>(xs: seq<T>, index: nat, keep: bool): seq<T>
    requires index < |xs|
  {
    (if keep then [xs[index]] else []) + Remove(xs, index)
  }

  datatype Encoded = Encoded(tokens: seq<Token>, context: Context)

  function Encode(g: Graph, r: Ref, c: Context): (e: Encoded)
    requires Acyclic(g) && NopsLeadToRibs(g) && Below(r, |g|)
    ensures e.context.counts.Keys == c.counts.Keys
    decreases if r.Rib? then r.id + 1 else 0
  {
    match r
    case Int(n) => Encoded([Push(n)], c)
    case Rib(_) =>
      var id := Strip(g, r).id;
      if id in c.counts && id in c.dictionary then
        var index := IndexOf(c.dictionary, id);
        var counts := Decrement(c.counts, id);
        var keep := counts[id] != 0;
        Encoded([Refer(index, keep)], Context(Use(c.dictionary, index, keep), counts))
      else
        var car := Encode(g, g[id].car, c);
        var cdr := Encode(g, g[id].cdr, car.context);
        var tokens := car.tokens + cdr.tokens + [Make(g[id].tag)];
        if id in c.counts then
          Encoded(tokens + [Remember],
                  Context([id] + cdr.context.dictionary, Decrement(cdr.context.counts, id)))
        else
          Encoded(tokens, cdr.context)
  }

  // ----- decoder -----

  /** The ribs made so far, the stack, its top last, and the dictionary, its front first. */
  datatype RibMachine = RibMachine(ribs: Graph, stack: seq<Ref>, dictionary: seq<Ref>)

  function Top(m: RibMachine): Ref
    requires m.stack != []
  {
    m.stack[|m.stack| - 1]
  }

  predicate CanStep(m: RibMachine, t: Token) {
    match t
    case Remember => m.stack != []
    case Refer(index, _) => index < |m.dictionary|
    case Make(_) => |m.stack| >= 2
    case Push(_) => true
  }

  // The tag of a number cannot be set.
  function TagOf(cdr: Ref, tag: nat): nat {
    if cdr.Rib? then tag else 0
  }

  function Step(m: RibMachine, t: Token): RibMachine
    requires CanStep(m, t)
  {
    match t
    case Remember => m.(dictionary := [Top(m)] + m.dictionary)
    case Refer(index, keep) =>
      m.(stack := m.stack + [m.dictionary[index]], dictionary := Use(m.dictionary, index, keep))
    case Make(tag) =>
      var n := |m.stack|;
      var cdr := m.stack[n - 1];
      RibMachine(m.ribs + [Node(m.stack[n - 2], cdr, TagOf(cdr, tag))], m.stack[..n - 2] + [Rib(|m.ribs|)],
                 m.dictionary)
    case Push(n) => m.(stack := m.stack + [Int(n)])
  }

  ghost predicate CanRun(m: RibMachine, tokens: seq<Token>)
    decreases |tokens|
  {
    tokens == [] || (CanStep(m, tokens[0]) && CanRun(Step(m, tokens[0]), tokens[1..]))
  }

  function Run(m: RibMachine, tokens: seq<Token>): RibMachine
    requires CanRun(m, tokens)
    decreases |tokens|
  {
    if tokens == [] then m else Run(Step(m, tokens[0]), tokens[1..])
  }

  lemma {:induction false} RunAppend(m: RibMachine, a: seq<Token>, b: seq<Token>)
    requires CanRun(m, a) && CanRun(Run(m, a), b)
    ensures CanRun(m, a + b) && Run(m, a + b) == Run(Run(m, a), b)
    decreases |a|
  {
    if a == [] {
      assert a + b == b;
    } else {
      assert (a + b)[1..] == a[1..] + b;
      RunAppend(Step(m, a[0]), a[1..], b);
    }
  }

  // ----- round trip -----

  /** A `cdr` field that holds a number has no place for a tag other than zero. */
  ghost predicate WellTagged(g: Graph) {
    forall i :: 0 <= i < |g| && g[i].cdr.Int? ==> g[i].tag == 0
  }

  /** Both dictionaries hold the same trees in the same places. */
  ghost predicate InStep(g: Graph, c: Context, m: RibMachine)
    requires Acyclic(g) && NopsLeadToRibs(g)
  {
    && Acyclic(m.ribs) && |m.dictionary| == |c.dictionary|
    && (forall i :: 0 <= i < |m.stack| ==> Below(m.stack[i], |m.ribs|))
    && forall i :: 0 <= i < |c.dictionary| ==>
         && c.dictionary[i] < |g| && !IsNop(g, Rib(c.dictionary[i])) && Below(m.dictionary[i], |m.ribs|)
         && Unfold(m.ribs, m.dictionary[i]) == TreeOf(g, Rib(c.dictionary[i]))
  }

  /** What decoding an encoded value does: it leaves everything made so far, pushes a value with the right
      tree, and keeps the dictionaries in step. */
  ghost predicate Decodes(g: Graph, r: Ref, m: RibMachine, e: Encoded)
    requires Acyclic(g) && NopsLeadToRibs(g) && Below(r, |g|)
  {
    && CanRun(m, e.tokens)
    && var m' := Run(m, e.tokens);
       && InStep(g, e.context, m') && m.ribs <= m'.ribs
       && |m'.stack| == |m.stack| + 1 && m'.stack[..|m.stack|] == m.stack
       && Unfold(m'.ribs, Top(m')) == TreeOf(g, r)
  }

  lemma {:induction false} DecodeNumber(g: Graph, n: int, c: Context, m: RibMachine)
    requires Acyclic(g) && NopsLeadToRibs(g) && InStep(g, c, m)
    ensures Decodes(g, Int(n), m, Encoded([Push(n)], c))
  {
    var t := [Push(n)];
    assert t[1..] == [];
    assert Run(m, t) == Step(m, Push(n));
  }

  lemma {:induction false} TreeOfStripped(g: Graph, r: Ref)
    requires Acyclic(g) && NopsLeadToRibs(g) && Below(r, |g|)
    ensures TreeOf(g, Strip(g, r)) == TreeOf(g, r)
  {
  }

  // Where the entry at `i` was before the entry at `index` was used.
  function Before(index: nat, keep: bool, i: nat): nat {
    if keep && i == 0 then index
    else
      var k := if keep then i - 1 else i;
      if k < index then k else k + 1
  }

  lemma {:induction false} UseAt<T>(xs: seq<T>, index: nat, keep: bool, i: nat)
    requires index < |xs| && i < |Use(xs, index, keep)|
    ensures Before(index, keep, i) < |xs| && Use(xs, index, keep)[i] == xs[Before(index, keep, i)]
  {
  }

  lemma {:induction false} UseKeepsStep(g: Graph, c: Context, m: RibMachine, index: nat, keep: bool)
    requires Acyclic(g) && NopsLeadToRibs(g) && InStep(g, c, m) && index < |c.dictionary|
    ensures InStep(g, Context(Use(c.dictionary, index, keep), c.counts),
                   m.(dictionary := Use(m.dictionary, index, keep)))
  {
    hide Unfold, TreeOf, Use, IsNop;
    var d, e := Use(c.dictionary, index, keep), Use(m.dictionary, index, keep);
    assert |d| == |e| by {
      UseLength(c.dictionary, index, keep);
      UseLength(m.dictionary, index, keep);
    }
    forall i | 0 <= i < |d|
      ensures d[i] < |g| && !IsNop(g, Rib(d[i])) && Below(e[i], |m.ribs|)
              && Unfold(m.ribs, e[i]) == TreeOf(g, Rib(d[i]))
    {
      UseAt(c.dictionary, index, keep, i);
      UseAt(m.dictionary, index, keep, i);
    }
  }

  lemma {:induction false} UseLength<T>(xs: seq<T>, index: nat, keep: bool)
    requires index < |xs|
    ensures |Use(xs, index, keep)| == if keep then |xs| else |xs| - 1
  {
  }

  lemma {:induction false} DecodeReference(g: Graph, r: Ref, c: Context, m: RibMachine)
    requires Acyclic(g) && NopsLeadToRibs(g) && Below(r, |g|) && r.Rib? && InStep(g, c, m)
    requires var id := Strip(g, r).id; id in c.counts && id in c.dictionary
    ensures Decodes(g, r, m, Encode(g, r, c))
  {
    hide Unfold, TreeOf, Use, IsNop, Run;
    var e := Encode(g, r, c);
    var id := Strip(g, r).id;
    var index := IndexOf(c.dictionary, id);
    var keep := e.tokens[0].keep;
    RunOne(m, e.tokens[0]);
    TreeOfStripped(g, r);
    UseKeepsStep(g, c, m, index, keep);
    var m' := Step(m, e.tokens[0]);
    assert e.context.dictionary == Use(c.dictionary, index, keep);
    assert m' == RibMachine(m.ribs, m.stack + [m.dictionary[index]], Use(m.dictionary, index, keep));
    assert Unfold(m.ribs, m.dictionary[index]) == TreeOf(g, Rib(c.dictionary[index]));
  }

  /** Making a rib of the two values on top. */
  lemma {:induction false} DecodeMake(g: Graph, id: nat, c: Context, m: RibMachine)
    requires Acyclic(g) && NopsLeadToRibs(g) && WellTagged(g) && id < |g| && !IsNop(g, Rib(id))
    requires InStep(g, c, m) && |m.stack| >= 2
    requires Unfold(m.ribs, m.stack[|m.stack| - 2]) == TreeOf(g, g[id].car)
    requires Unfold(m.ribs, Top(m)) == TreeOf(g, g[id].cdr)
    ensures var m' := Step(m, Make(g[id].tag));
            && InStep(g, c, m') && m.ribs <= m'.ribs
            && |m'.stack| == |m.stack| - 1 && m'.stack[..|m.stack| - 2] == m.stack[..|m.stack| - 2]
            && Unfold(m'.ribs, Top(m')) == TreeOf(g, Rib(id))
  {
    var m' := Step(m, Make(g[id].tag));
    assert Acyclic(m'.ribs);
    forall i | 0 <= i < |c.dictionary|
      ensures Unfold(m'.ribs, m'.dictionary[i]) == TreeOf(g, Rib(c.dictionary[i]))
    {
      UnfoldGrows(m.ribs, m'.ribs, m.dictionary[i]);
    }
    UnfoldGrows(m.ribs, m'.ribs, Top(m));
    UnfoldGrows(m.ribs, m'.ribs, m.stack[|m.stack| - 2]);
    assert m'.stack[..|m.stack| - 2] == m.stack[..|m.stack| - 2];
  }

  lemma {:induction false} DecodeRemember(g: Graph, id: nat, c: Context, m: RibMachine)
    requires Acyclic(g) && NopsLeadToRibs(g) && id < |g| && !IsNop(g, Rib(id)) && id in c.counts
    requires InStep(g, c, m) && m.stack != [] && Unfold(m.ribs, Top(m)) == TreeOf(g, Rib(id))
    ensures InStep(g, Context([id] + c.dictionary, Decrement(c.counts, id)), Step(m, Remember))
  {
  }

  lemma {:induction false} RunOne(m: RibMachine, t: Token)
    requires CanStep(m, t)
    ensures CanRun(m, [t]) && Run(m, [t]) == Step(m, t)
  {
    assert [t][1..] == [];
    assert CanRun(Step(m, t), [t][1..]);
  }

  /** Decoding what was encoded gives the same tree back, whatever the counts and the dictionary. */
  lemma {:induction false} DecodeInvertsEncode(g: Graph, r: Ref, c: Context, m: RibMachine)
    requires Acyclic(g) && NopsLeadToRibs(g) && WellTagged(g) && Below(r, |g|) && InStep(g, c, m)
    ensures Decodes(g, r, m, Encode(g, r, c))
    decreases if r.Rib? then r.id + 1 else 0
  {
    if r.Int? {
      DecodeNumber(g, r.n, c, m);
    } else {
      var id := Strip(g, r).id;
      if id in c.counts && id in c.dictionary {
        DecodeReference(g, r, c, m);
      } else {
        var car := Encode(g, g[id].car, c);
        DecodeInvertsEncode(g, g[id].car, c, m);
        var m1 := Run(m, car.tokens);
        var cdr := Encode(g, g[id].cdr, car.context);
        DecodeInvertsEncode(g, g[id].cdr, car.context, m1);
        var m2 := Run(m1, cdr.tokens);
        DecodeFields(g, r, c, m, m1, m2);
      }
    }
  }

  lemma {:induction false} DecodeFields(g: Graph, r: Ref, c: Context, m: RibMachine, m1: RibMachine, m2: RibMachine)
    requires Acyclic(g) && NopsLeadToRibs(g) && WellTagged(g) && Below(r, |g|) && r.Rib?
    requires var id := Strip(g, r).id;
             && !(id in c.counts && id in c.dictionary)
             && var car := Encode(g, g[id].car, c);
                var cdr := Encode(g, g[id].cdr, car.context);
                && Decodes(g, g[id].car, m, car) && m1 == Run(m, car.tokens)
                && Decodes(g, g[id].cdr, m1, cdr) && m2 == Run(m1, cdr.tokens)
    ensures Decodes(g, r, m, Encode(g, r, c))
  {
    hide Encode, Run, CanRun;
    var id := Strip(g, r).id;
    var car := Encode(g, g[id].car, c);
    var cdr := Encode(g, g[id].cdr, car.context);
    var make := Make(g[id].tag);
    var n := |m.stack|;
    assert m2.stack[n] == m1.stack[n] by {
      assert m2.stack[..n + 1] == m1.stack;
    }
    assert Unfold(m2.ribs, m2.stack[n]) == TreeOf(g, g[id].car) by {
      UnfoldGrows(m1.ribs, m2.ribs, m1.stack[n]);
    }
    DecodeMake(g, id, cdr.context, m2);
    var m3 := Step(m2, make);
    RunFields(m, car.tokens, cdr.tokens, g[id].tag);
    assert TreeOf(g, r) == TreeOf(g, Rib(id));
    assert m3.stack[..n] == m2.stack[..n] == m1.stack[..n] == m.stack;
    EncodeFields(g, r, c);
    if id in c.counts {
      DecodeRemember(g, id, cdr.context, m3);
    }
  }

  lemma {:induction false} EncodeEntry(g: Graph, r: Ref, c: Context)
    requires Acyclic(g) && NopsLeadToRibs(g) && Below(r, |g|) && r.Rib?
    requires var id := Strip(g, r).id; id in c.counts && id in c.dictionary
    ensures var id := Strip(g, r).id;
            var index, counts := IndexOf(c.dictionary, id), Decrement(c.counts, id);
            var keep := counts[id] != 0;
            Encode(g, r, c) == Encoded([Refer(index, keep)], Context(Use(c.dictionary, index, keep), counts))
  {
  }

  // The entries other than `id`.
  function Without(xs: seq<nat>, id: nat): seq<nat> {
    if xs == [] then [] else (if xs[0] == id then [] else [xs[0]]) + Without(xs[1..], id)
  }

  lemma {:induction false} WithoutAppend(a: seq<nat>, b: seq<nat>, id: nat)
    ensures Without(a + b, id) == Without(a, id) + Without(b, id)
  {
    if a == [] {
      assert a + b == b;
    } else {
      assert (a + b)[1..] == a[1..] + b;
      WithoutAppend(a[1..], b, id);
    }
  }

  /** A reference names the first place of its value in the dictionary. The value goes to the front if it is
      still to be met and otherwise leaves, and the other entries keep their order. */
  lemma {:induction false} EntryIsUsed(g: Graph, r: Ref, c: Context)
    requires Acyclic(g) && NopsLeadToRibs(g) && Below(r, |g|) && r.Rib?
    requires var id := Strip(g, r).id; id in c.counts && id in c.dictionary
    ensures var id, e := Strip(g, r).id, Encode(g, r, c);
            && |e.tokens| == 1 && e.tokens[0].Refer?
            && var Refer(index, keep) := e.tokens[0];
               && index < |c.dictionary| && c.dictionary[index] == id && id !in c.dictionary[..index]
               && (keep <==> e.context.counts[id] != 0) && e.context.counts[id] == c.counts[id] - 1
               && (keep ==> e.context.dictionary != [] && e.context.dictionary[0] == id)
               && |e.context.dictionary| == (if keep then |c.dictionary| else |c.dictionary| - 1)
               && Without(e.context.dictionary, id) == Without(c.dictionary, id)
  {
    hide Encode, Without, Use;
    EncodeEntry(g, r, c);
    var id := Strip(g, r).id;
    UseKeepsOrder(c.dictionary, IndexOf(c.dictionary, id), Decrement(c.counts, id)[id] != 0);
  }

  lemma {:induction false} UseKeepsOrder(d: seq<nat>, index: nat, keep: bool)
    requires index < |d|
    ensures var e, id := Use(d, index, keep), d[index];
            && Without(e, id) == Without(d, id) && |e| == (if keep then |d| else |d| - 1)
            && (keep ==> e[0] == id)
  {
    var id := d[index];
    UseLength(d, index, keep);
    assert d == d[..index] + ([id] + d[index + 1..]);
    WithoutAppend(d[..index], [id] + d[index + 1..], id);
    WithoutAppend([id], d[index + 1..], id);
    WithoutAppend(if keep then [id] else [], Remove(d, index), id);
    WithoutAppend(d[..index], d[index + 1..], id);
  }

  lemma {:induction false} EncodeFields(g: Graph, r: Ref, c: Context)
    requires Acyclic(g) && NopsLeadToRibs(g) && Below(r, |g|) && r.Rib?
    requires var id := Strip(g, r).id; !(id in c.counts && id in c.dictionary)
    ensures var id := Strip(g, r).id;
            var car := Encode(g, g[id].car, c);
            var cdr := Encode(g, g[id].cdr, car.context);
            var tokens := car.tokens + cdr.tokens + [Make(g[id].tag)];
            Encode(g, r, c) ==
            if id in c.counts then
              Encoded(tokens + [Remember], Context([id] + cdr.context.dictionary, Decrement(cdr.context.counts, id)))
            else Encoded(tokens, cdr.context)
  {
  }

  /** Running the tokens of a rib: those of its fields, the rib, and its entry into the dictionary. */
  lemma {:induction false} RunFields(m: RibMachine, car: seq<Token>, cdr: seq<Token>, tag: nat)
    requires CanRun(m, car) && CanRun(Run(m, car), cdr) && |Run(Run(m, car), cdr).stack| >= 2
    ensures var tokens, m' := car + cdr + [Make(tag)], Step(Run(Run(m, car), cdr), Make(tag));
            && CanRun(m, tokens) && Run(m, tokens) == m'
            && CanRun(m, tokens + [Remember]) && Run(m, tokens + [Remember]) == Step(m', Remember)
  {
    hide Run, CanRun;
    var m2 := Run(Run(m, car), cdr);
    RunAppend(m, car, cdr);
    RunOne(m2, Make(tag));
    RunAppend(m, car + cdr, [Make(tag)]);
    RunOne(Step(m2, Make(tag)), Remember);
    RunAppend(m, car + cdr + [Make(tag)], [Remember]);
  }
}
