/** What the dictionary is for: all occurrences of one shared rib become one decoded rib. */
module Sharing {
  import opened RibGraphs
  import opened RibTokens
  import opened Encoding
  import opened Counting
  import opened Distinctness

  /** `w` is a copy of `r`, nops stripped, in which every occurrence of a shared rib is the rib that `cell` names.
      `origin` says which rib each one has been copied from. */
  ghost predicate Copies(g: Graph, h: Graph, origin: seq<nat>, shared: set<nat>, cell: map<nat, nat>, r: Ref, w: Ref)
    requires Acyclic(g) && NopsLeadToRibs(g) && Below(r, |g|)
    decreases if r.Rib? then r.id + 1 else 0
  {
    match r
    case Int(_) => w == r
    case Rib(_) =>
      var id := Strip(g, r).id;
      && w.Rib? && w.id < |h| && w.id < |origin| && origin[w.id] == id
      && (id in shared ==> id in cell && w.id == cell[id])
      && h[w.id].tag == TagOf(h[w.id].cdr, g[id].tag)
      && Copies(g, h, origin, shared, cell, g[id].car, h[w.id].car)
      && Copies(g, h, origin, shared, cell, g[id].cdr, h[w.id].cdr)
  }

  lemma {:induction false} CopiesGrow(g: Graph, h: Graph, h': Graph, origin: seq<nat>, origin': seq<nat>,
                                      shared: set<nat>, cell: map<nat, nat>, cell': map<nat, nat>, r: Ref, w: Ref)
    requires Acyclic(g) && NopsLeadToRibs(g) && Below(r, |g|)
    requires h <= h' && origin <= origin' && (forall id :: id in cell ==> id in cell' && cell'[id] == cell[id])
    requires Copies(g, h, origin, shared, cell, r, w)
    ensures Copies(g, h', origin', shared, cell', r, w)
    decreases if r.Rib? then r.id + 1 else 0
  {
    if r.Rib? {
      var id := Strip(g, r).id;
      CopiesGrow(g, h, h', origin, origin', shared, cell, cell', g[id].car, h[w.id].car);
      CopiesGrow(g, h, h', origin, origin', shared, cell, cell', g[id].cdr, h[w.id].cdr);
    }
  }

  lemma {:induction false} CopyOfStripped(g: Graph, h: Graph, origin: seq<nat>, shared: set<nat>, cell: map<nat, nat>,
                                          r: Ref, w: Ref)
    requires Acyclic(g) && NopsLeadToRibs(g) && Below(r, |g|)
    ensures Copies(g, h, origin, shared, cell, Strip(g, r), w) == Copies(g, h, origin, shared, cell, r, w)
  {
  }

  ghost predicate Extends(cell: map<nat, nat>, cell': map<nat, nat>) {
    forall id :: id in cell ==> id in cell' && cell'[id] == cell[id]
  }

  /** Where each rib has come from, the ribs of the shared ones met so far, and the dictionaries entry for entry. */
  ghost predicate Shares(g: Graph, c: Context, m: RibMachine, shared: set<nat>, seen: set<nat>, cell: map<nat, nat>,
                         origin: seq<nat>)
    requires Acyclic(g) && NopsLeadToRibs(g)
  {
    && |origin| == |m.ribs| && cell.Keys == shared * seen
    && (forall id :: id in cell ==>
          id < |g| && !IsNop(g, Rib(id)) && Copies(g, m.ribs, origin, shared, cell, Rib(id), Rib(cell[id])))
    && |m.dictionary| == |c.dictionary|
    && forall i :: 0 <= i < |c.dictionary| ==> c.dictionary[i] in cell && m.dictionary[i] == Rib(cell[c.dictionary[i]])
  }

  /** Decoding an encoded value pushes a copy of it. */
  ghost predicate PushesCopy(g: Graph, r: Ref, m: RibMachine, e: Encoded, shared: set<nat>, seen: set<nat>,
                             cell: map<nat, nat>, cell': map<nat, nat>, origin: seq<nat>, origin': seq<nat>)
    requires Acyclic(g) && NopsLeadToRibs(g) && Below(r, |g|)
  {
    && CanRun(m, e.tokens) && Extends(cell, cell') && origin <= origin'
    && var m' := Run(m, e.tokens);
       && m.ribs <= m'.ribs && Shares(g, e.context, m', shared, seen, cell', origin')
       && |m'.stack| == |m.stack| + 1 && m'.stack[..|m.stack|] == m.stack
       && Copies(g, m'.ribs, origin', shared, cell', r, Top(m'))
  }

  lemma {:induction false} ShareReference(g: Graph, r: Ref, c: Context, m: RibMachine, shared: set<nat>,
                                          seen: set<nat>, cell: map<nat, nat>, origin: seq<nat>)
    requires Acyclic(g) && NopsLeadToRibs(g) && Below(r, |g|) && r.Rib? && Shares(g, c, m, shared, seen, cell, origin)
    requires var id := Strip(g, r).id; id in c.counts && id in c.dictionary
    ensures PushesCopy(g, r, m, Encode(g, r, c), shared, seen, cell, cell, origin, origin)
  {
    hide Copies, Use, Run;
    var e := Encode(g, r, c);
    var id := Strip(g, r).id;
    var index := IndexOf(c.dictionary, id);
    var keep := e.tokens[0].keep;
    RunOne(m, e.tokens[0]);
    var m' := Step(m, e.tokens[0]);
    UseLength(c.dictionary, index, keep);
    UseLength(m.dictionary, index, keep);
    forall i | 0 <= i < |e.context.dictionary|
      ensures e.context.dictionary[i] in cell && m'.dictionary[i] == Rib(cell[e.context.dictionary[i]])
    {
      UseAt(c.dictionary, index, keep, i);
      UseAt(m.dictionary, index, keep, i);
    }
    assert Strip(g, r) == Rib(id);
    CopyOfStripped(g, m.ribs, origin, shared, cell, r, Rib(cell[id]));
  }

  /** Making the rib of two copied fields. */
  lemma {:induction false} ShareMake(g: Graph, id: nat, c: Context, m: RibMachine, shared: set<nat>, seen: set<nat>,
                                     cell: map<nat, nat>, origin: seq<nat>)
    requires Acyclic(g) && NopsLeadToRibs(g) && id < |g| && !IsNop(g, Rib(id)) && id !in shared * seen
    requires Shares(g, c, m, shared, seen, cell, origin) && |m.stack| >= 2
    requires Copies(g, m.ribs, origin, shared, cell, g[id].car, m.stack[|m.stack| - 2])
    requires Copies(g, m.ribs, origin, shared, cell, g[id].cdr, Top(m))
    ensures var m' := Step(m, Make(g[id].tag));
            var cell' := if id in shared then cell[id := |m.ribs|] else cell;
            && Top(m') == Rib(|m.ribs|)
            && Copies(g, m'.ribs, origin + [id], shared, cell', Rib(id), Rib(|m.ribs|))
            && forall i :: i in cell ==> Copies(g, m'.ribs, origin + [id], shared, cell', Rib(i), Rib(cell[i]))
  {
    var m', origin' := Step(m, Make(g[id].tag)), origin + [id];
    var cell' := if id in shared then cell[id := |m.ribs|] else cell;
    CopiesGrow(g, m.ribs, m'.ribs, origin, origin', shared, cell, cell', g[id].car, m.stack[|m.stack| - 2]);
    CopiesGrow(g, m.ribs, m'.ribs, origin, origin', shared, cell, cell', g[id].cdr, Top(m));
    forall i | i in cell ensures Copies(g, m'.ribs, origin', shared, cell', Rib(i), Rib(cell[i])) {
      CopiesGrow(g, m.ribs, m'.ribs, origin, origin', shared, cell, cell', Rib(i), Rib(cell[i]));
    }
  }

  /** And entering it into the dictionary if it is counted. */
  lemma {:induction false} ShareRemember(g: Graph, id: nat, c: Context, m: RibMachine, shared: set<nat>,
                                         seen: set<nat>, cell: map<nat, nat>, origin: seq<nat>)
    requires Acyclic(g) && NopsLeadToRibs(g) && id < |g| && !IsNop(g, Rib(id)) && id !in shared * seen
    requires Shares(g, c, m, shared, seen, cell, origin) && |m.stack| >= 2 && (id in c.counts ==> id in shared)
    requires Copies(g, m.ribs, origin, shared, cell, g[id].car, m.stack[|m.stack| - 2])
    requires Copies(g, m.ribs, origin, shared, cell, g[id].cdr, Top(m))
    ensures var m' := Step(m, Make(g[id].tag));
            var cell' := if id in shared then cell[id := |m.ribs|] else cell;
            var seen' := if id in shared then seen + {id} else seen;
            if id in c.counts then
              Shares(g, Context([id] + c.dictionary, Decrement(c.counts, id)), Step(m', Remember), shared, seen', cell',
                     origin + [id])
            else Shares(g, c, m', shared, seen', cell', origin + [id])
  {
    hide Copies;
    ShareMake(g, id, c, m, shared, seen, cell, origin);
    if id in shared {
      assert (shared * seen) + {id} == shared * (seen + {id});
    }
  }

  lemma {:induction false} SameCellAsStack(g: Graph, m: RibMachine, m': RibMachine, origin: seq<nat>,
                                           origin': seq<nat>, shared: set<nat>, cell: map<nat, nat>,
                                           cell': map<nat, nat>, r: Ref, n: nat)
    requires Acyclic(g) && NopsLeadToRibs(g) && Below(r, |g|)
    requires m.ribs <= m'.ribs && origin <= origin' && Extends(cell, cell') && |m.stack| == n + 1 <= |m'.stack|
    requires m'.stack[..n + 1] == m.stack && Copies(g, m.ribs, origin, shared, cell, r, Top(m))
    ensures Copies(g, m'.ribs, origin', shared, cell', r, m'.stack[n])
  {
    assert m'.stack[n] == m'.stack[..n + 1][n];
    CopiesGrow(g, m.ribs, m'.ribs, origin, origin', shared, cell, cell', r, Top(m));
  }

  /** The fields of a rib that is met for the first time. */
  lemma {:induction false} ShareFields(g: Graph, r: Ref, c: Context, m: RibMachine, shared: set<nat>, seen: set<nat>,
                                       cell: map<nat, nat>, origin: seq<nat>, m1: RibMachine, cell1: map<nat, nat>,
                                       origin1: seq<nat>, m2: RibMachine, cell2: map<nat, nat>, origin2: seq<nat>)
    returns (cell': map<nat, nat>, origin': seq<nat>)
    requires Acyclic(g) && NopsLeadToRibs(g) && Below(r, |g|) && r.Rib? && Shares(g, c, m, shared, seen, cell, origin)
    requires c.counts.Keys <= shared
    requires var id := Strip(g, r).id;
             && !(id in c.counts && id in c.dictionary) && !(id in shared && id in seen)
             && var car := Encode(g, g[id].car, c);
                var cdr := Encode(g, g[id].cdr, car.context);
                var u := Walk(g, g[id].car, shared, seen);
                var v := Walk(g, g[id].cdr, shared, u.seen);
                && PushesCopy(g, g[id].car, m, car, shared, u.seen, cell, cell1, origin, origin1)
                && m1 == Run(m, car.tokens)
                && PushesCopy(g, g[id].cdr, m1, cdr, shared, v.seen, cell1, cell2, origin1, origin2)
                && m2 == Run(m1, cdr.tokens)
    ensures PushesCopy(g, r, m, Encode(g, r, c), shared, Walk(g, r, shared, seen).seen, cell, cell', origin, origin')
  {
    hide Encode, Run, CanRun, Copies, Shares, Walk, NopsLeadToRibs, Acyclic, Strip;
    StripIsRib(g, r);
    var id, n := Strip(g, r).id, |m.stack|;
    var car := Encode(g, g[id].car, c);
    var cdr := Encode(g, g[id].cdr, car.context);
    WalkFirst(g, r, shared, seen);
    EncodeFields(g, r, c);
    SameCellAsStack(g, m1, m2, origin1, origin2, shared, cell1, cell2, g[id].car, n);
    var v := Walk(g, g[id].cdr, shared, Walk(g, g[id].car, shared, seen).seen);
    CellsAreSeen(g, cdr.context, m2, shared, v.seen, cell2, origin2);
    ShareMake(g, id, cdr.context, m2, shared, v.seen, cell2, origin2);
    ShareRemember(g, id, cdr.context, m2, shared, v.seen, cell2, origin2);
    var m3 := Step(m2, Make(g[id].tag));
    RunFields(m, car.tokens, cdr.tokens, g[id].tag);
    assert m3.stack[..n] == m2.stack[..n] == m1.stack[..n] == m.stack;
    assert Strip(g, r) == Rib(id);
    cell', origin' := if id in shared then cell2[id := |m2.ribs|] else cell2, origin2 + [id];
    CopyOfStripped(g, m3.ribs, origin', shared, cell', r, Rib(|m2.ribs|));
  }

  lemma {:induction false} StripIsRib(g: Graph, r: Ref)
    requires Acyclic(g) && NopsLeadToRibs(g) && Below(r, |g|) && r.Rib?
    ensures var id := Strip(g, r).id;
            && Strip(g, r) == Rib(id) && id < |g| && id <= r.id && !IsNop(g, Rib(id))
            && Below(g[id].car, id) && Below(g[id].cdr, id) && Below(g[id].car, |g|) && Below(g[id].cdr, |g|)
  {
  }

  lemma {:induction false} CellsAreSeen(g: Graph, c: Context, m: RibMachine, shared: set<nat>, seen: set<nat>,
                                        cell: map<nat, nat>, origin: seq<nat>)
    requires Acyclic(g) && NopsLeadToRibs(g) && Shares(g, c, m, shared, seen, cell, origin)
    ensures cell.Keys == shared * seen && |origin| == |m.ribs|
  {
  }

  /** Decoding what was encoded with exact counts pushes a copy in which every shared rib is one rib. */
  lemma {:induction false} ShareEncode(g: Graph, r: Ref, c: Context, m: RibMachine, shared: set<nat>, seen: set<nat>,
                                       later: multiset<nat>, cell: map<nat, nat>, origin: seq<nat>)
    returns (cell': map<nat, nat>, origin': seq<nat>)
    requires Acyclic(g) && NopsLeadToRibs(g) && Below(r, |g|) && Distinct(c.dictionary)
    requires OnCount(c, shared, seen, Walk(g, r, shared, seen).hits + later)
    requires Shares(g, c, m, shared, seen, cell, origin)
    ensures PushesCopy(g, r, m, Encode(g, r, c), shared, Walk(g, r, shared, seen).seen, cell, cell', origin, origin')
    decreases if r.Rib? then r.id + 1 else 0
  {
    if r.Int? {
      cell', origin' := cell, origin;
      RunOne(m, Push(r.n));
    } else {
      var id := Strip(g, r).id;
      CountedAreShared(c, shared, seen, Walk(g, r, shared, seen).hits + later);
      if id in c.counts && id in c.dictionary {
        assert id in shared && id in seen;
        cell', origin' := cell, origin;
        ShareReference(g, r, c, m, shared, seen, cell, origin);
      } else {
        if id in shared {
          assert Walk(g, r, shared, seen).hits[id] > 0;
          FirstVisit(c, shared, seen, Walk(g, r, shared, seen).hits + later, id);
        }
        cell', origin' := ShareFirst(g, r, c, m, shared, seen, later, cell, origin);
      }
    }
  }

  lemma {:induction false} ShareFirst(g: Graph, r: Ref, c: Context, m: RibMachine, shared: set<nat>, seen: set<nat>,
                                      later: multiset<nat>, cell: map<nat, nat>, origin: seq<nat>)
    returns (cell': map<nat, nat>, origin': seq<nat>)
    requires Acyclic(g) && NopsLeadToRibs(g) && Below(r, |g|) && Distinct(c.dictionary) && r.Rib?
    requires OnCount(c, shared, seen, Walk(g, r, shared, seen).hits + later)
    requires Shares(g, c, m, shared, seen, cell, origin) && c.counts.Keys <= shared
    requires var id := Strip(g, r).id; !(id in c.counts && id in c.dictionary) && !(id in shared && id in seen)
    ensures PushesCopy(g, r, m, Encode(g, r, c), shared, Walk(g, r, shared, seen).seen, cell, cell', origin, origin')
    decreases r.id + 1, 0
  {
    hide OnCount, Walk, Encode, Distinct, Shares, Copies, Run, CanRun;
    var id := Strip(g, r).id;
    WalkFirst(g, r, shared, seen);
    var u := Walk(g, g[id].car, shared, seen);
    var v := Walk(g, g[id].cdr, shared, u.seen);
    var rest := if id in shared then multiset{id} + later else later;
    assert Walk(g, r, shared, seen).hits + later == u.hits + (v.hits + rest);
    var car := Encode(g, g[id].car, c);
    var cell1, origin1 := ShareEncode(g, g[id].car, c, m, shared, seen, v.hits + rest, cell, origin);
    EncodeKeepsCount(g, g[id].car, c, shared, seen, v.hits + rest);
    var m1 := Run(m, car.tokens);
    var cell2, origin2 := ShareEncode(g, g[id].cdr, car.context, m1, shared, u.seen, rest, cell1, origin1);
    var m2 := Run(m1, Encode(g, g[id].cdr, car.context).tokens);
    cell', origin' := ShareFields(g, r, c, m, shared, seen, cell, origin, m1, cell1, origin1, m2, cell2, origin2);
  }

  /** What decoding a whole program leaves. */
  lemma {:induction false} CopyPushed(g: Graph, r: Ref, m: RibMachine, e: Encoded, shared: set<nat>, seen: set<nat>,
                                      cell: map<nat, nat>, cell': map<nat, nat>, origin: seq<nat>, origin': seq<nat>)
    requires Acyclic(g) && NopsLeadToRibs(g) && Below(r, |g|)
    requires PushesCopy(g, r, m, e, shared, seen, cell, cell', origin, origin')
    requires m.stack == [] && e.context.dictionary == []
    ensures CanRun(m, e.tokens)
    ensures var m' := Run(m, e.tokens);
            && |m'.stack| == 1 && m'.dictionary == [] && |origin'| == |m'.ribs|
            && Copies(g, m'.ribs, origin', shared, cell', r, m'.stack[0])
    ensures forall id :: id in cell' ==> cell'[id] < |origin'| && origin'[cell'[id]] == id
  {
    var m' := Run(m, e.tokens);
    forall id | id in cell' ensures cell'[id] < |origin'| && origin'[cell'[id]] == id {
      assert Copies(g, m'.ribs, origin', shared, cell', Rib(id), Rib(cell'[id]));
    }
  }
}
