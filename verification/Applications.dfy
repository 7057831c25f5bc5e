/** Calls in generated code, on the points of module `Worlds`: arguments, frames and parameters. */
module Applications {
  import opened Stores
  import opened Scheme
  import opened CodeGenerator
  import opened Machine
  import opened Worlds
  import opened Execution
  import opened Instructions
  import Calls
  import Depth

  // ----- arguments -----

  /** `values` are on the stack from `t` down to `base`, the last one on top and each above an older one. */
  ghost predicate Temps(p: Point, t: nat, values: seq<Data>, base: nat)
    decreases |values|
  {
    if values == [] then t == base
    else
      var n := |values| - 1;
      && HasNext(p.w, t) && t + 1 < |p.s.words| && t !in p.w.vars && Next(p.w, t) < t
      && p.w.fixed[t + 1].cons.tag != FRAME
      && IsData(p.w, values[n], p.s.words[t])
      && Temps(p, Next(p.w, t), values[..n], base)
  }

  lemma {:induction false} TempsEvolve(p: Point, q: Point, t: nat, values: seq<Data>, base: nat, own: set<nat> := {})
    requires Evolves(p, q, own) && Temps(p, t, values, base)
    ensures Temps(q, t, values, base)
    decreases |values|
  {
    if values != [] {
      hide IsData;
      var n := |values| - 1;
      DataGrows(p.w, q.w, values[n], p.s.words[t]);
      TempsEvolve(p, q, Next(p.w, t), values[..n], base, own);
    }
  }

  /** The values belong to the frame. */
  lemma {:induction false} TempsAreHigh(p: Point, t: nat, values: seq<Data>, base: nat)
    requires Temps(p, t, values, base) && FixedIn(p.w, p.s.words)
    ensures Depth.Height(p.s.words, t) >= |values| && (values != [] ==> base < t < |p.s.words|)
    decreases |values|
  {
    if values != [] {
      hide IsData;
      TempsAreHigh(p, Next(p.w, t), values[..|values| - 1], base);
    }
  }

  /** A value below the others joins them. */
  lemma {:induction false} TempsBelow(p: Point, t: nat, values: seq<Data>, u: nat, d: Data, base: nat)
    requires Temps(p, t, values, u) && Temps(p, u, [d], base)
    ensures Temps(p, t, [d] + values, base)
    decreases |values|
  {
    if values == [] {
      assert [d] + values == [d];
    } else {
      hide IsData;
      var n := |values| - 1;
      TempsBelow(p, Next(p.w, t), values[..n], u, d, base);
      assert ([d] + values)[..n + 1] == [d] + values[..n];
    }
  }

  /** Elements before a list. */
  function ListOnto(values: seq<Data>, rest: Data): Data {
    if values == [] then rest else Rib(values[0], ListOnto(values[1..], rest), PAIR)
  }

  lemma {:induction false} ListOntoNull(values: seq<Data>)
    ensures ListOnto(values, Plain(Null)) == ListOf(values)
  {
    if values != [] {
      ListOntoNull(values[1..]);
    }
  }

  lemma {:induction false} ListOntoItems(values: seq<Data>, items: seq<Data>)
    ensures ListOnto(values, ListOf(items)) == ListOf(values + items)
    decreases |values|
  {
    if values == [] {
      assert values + items == items;
    } else {
      ListOntoItems(values[1..], items);
      assert (values + items)[1..] == values[1..] + items;
    }
  }

  lemma {:induction false} ListOntoLast(values: seq<Data>, rest: Data)
    requires values != []
    ensures var n := |values| - 1; ListOnto(values, rest) == ListOnto(values[..n], Rib(values[n], rest, PAIR))
    decreases |values|
  {
    var n := |values| - 1;
    if n > 0 {
      ListOntoLast(values[1..], rest);
      assert values[..n][1..] == values[1..][..n - 1];
    }
  }

  lemma {:induction false} ConsMakes(p: Point, a: Data, x: Value, b: Data, y: Value)
    requires Holds(p) && IsData(p.w, a, x) && IsData(p.w, b, y)
    ensures var q := Made(p, x, y.SetTag(PAIR));
            Holds(q) && Evolves(p, q) && IsData(q.w, Rib(a, b, PAIR), Pointer(Fresh(p.s)))
  {
    var q := Made(p, x, y.SetTag(PAIR));
    CellMade(p, x, y.SetTag(PAIR));
    DataGrows(p.w, q.w, a, x);
    DataIgnoresTag(p.w, b, y, y.SetTag(PAIR));
    DataGrows(p.w, q.w, b, y.SetTag(PAIR));
  }

  lemma {:induction false} PopTemp(p: Point, values: seq<Data>, base: nat)
    requires Holds(p) && values != [] && Temps(p, p.s.stack.index, values, base)
    ensures PopOf(p.s).Ok?
    ensures var (v, s') := PopOf(p.s).value;
            && s' == p.s.(stack := s'.stack) && Temps(p, s'.stack.index, values[..|values| - 1], base)
            && IsData(p.w, values[|values| - 1], v)
  {
    hide IsData, HasPrimitive;
    var t := p.s.stack.index;
    assert CdrOf(p.s, p.s.stack) == Run.Ok(p.w.fixed[t + 1]);
  }

  /** Popping the arguments makes a list of them. */
  lemma {:induction false} CollectArguments(p: Point, values: seq<Data>, base: nat, list: Cons, rest: Data)
    returns (q: Point)
    requires Holds(p) && Temps(p, p.s.stack.index, values, base) && IsData(p.w, rest, Pointer(list))
    ensures Holds(q) && Evolves(p, q) && q.st == p.st && q.w.vars == p.w.vars
    ensures var r := PopArguments(p.s, |values|, list);
            && r.Ok? && r.value.0 == q.s && IsData(q.w, ListOnto(values, rest), Pointer(r.value.1))
    ensures q.s.stack.index == base && q.s.code == p.s.code && q.s.register == p.s.register
    decreases |values|
  {
    hide IsData, HasPrimitive, Evolves, Holds, Temps;
    if values == [] {
      EvolvesRefl(p);
      assert p.s.stack.index == base by {
        NoTemps(p, base);
      }
      q := p;
    } else {
      var n := |values| - 1;
      PopTemp(p, values, base);
      var (v, s1) := PopOf(p.s).value;
      var p1 := p.(s := s1);
      OnlyRoots(p, s1);
      ConsMakes(p1, values[n], v, rest, Pointer(list));
      var p2 := Made(p1, v, Pointer(list.SetTag(PAIR)));
      DataIsNotNever(p.w, values[n], v);
      EvolvesTrans(p, p1, p2);
      TempsEvolve(p, p2, s1.stack.index, values[..n], base);
      q := CollectArguments(p2, values[..n], base, Fresh(s1), Rib(values[n], rest, PAIR));
      EvolvesTrans(p, p2, q);
      ListOntoLast(values, rest);
    }
  }

  lemma {:induction false} NoTemps(p: Point, base: nat)
    requires Temps(p, p.s.stack.index, [], base)
    ensures p.s.stack.index == base
  {
  }

  lemma {:induction false} NullIsData(p: Point)
    requires Holds(p)
    ensures NullOf(p.s).Ok? && IsData(p.w, Plain(Null), Pointer(NullOf(p.s).value))
  {
  }

  /** The arguments of a call, those of `apply` spread out, become one list. */
  lemma {:induction false} CollectAll(p: Point, values: seq<Data>, base: nat, a: Arity) returns (q: Point)
    requires Holds(p) && Temps(p, p.s.stack.index, values, base) && Spread(values, a.variadic).Done?
    requires |values| == if a.variadic then a.count + 1 else a.count
    ensures Holds(q) && Evolves(p, q) && q.st == p.st && q.w.vars == p.w.vars
    ensures var r := ArgumentsOf(p.s, a);
            && r.Ok? && r.value.0 == q.s
            && IsData(q.w, ListOf(Spread(values, a.variadic).value), Pointer(r.value.1))
    ensures q.s.stack.index == base && q.s.code == p.s.code && q.s.register == p.s.register
  {
    hide IsData, HasPrimitive, Evolves, Holds, Temps, IsList, ListOf, Items;
    if a.variadic {
      var n := |values| - 1;
      PopTemp(p, values, base);
      var (v, s1) := PopOf(p.s).value;
      var p1 := p.(s := s1);
      OnlyRoots(p, s1);
      TempsEvolve(p, p1, s1.stack.index, values[..n], base);
      assert v.Pointer? by {
        ListIsPointer(p.w, values[n], v);
      }
      q := CollectArguments(p1, values[..n], base, v.cons, values[n]);
      EvolvesTrans(p, p1, q);
      ListOntoItems(values[..n], Items(values[n]));
    } else {
      NullIsData(p);
      q := CollectArguments(p, values, base, NullOf(p.s).value, Plain(Null));
      ListOntoNull(values);
    }
  }

  lemma {:induction false} ListIsPointer(w: World, d: Data, v: Value)
    requires IsData(w, d, v) && IsList(d)
    ensures v.Pointer?
  {
  }

  // ----- frames -----

  /** A tail call takes over the continuation of its caller; any other call makes one. */
  lemma {:induction false} MakeContinuation(p: Point, links: Links, code: Cons, tail: bool, n: nat, caller: Caller)
    returns (k: Cons, q: Point)
    requires Holds(p) && LinksIn(links, p.s.words)
    requires if tail then HasFrame(p.w, p.s.stack.index, n, caller, links) && n < |p.s.words|
             else code.index % 2 == 0 && HasNext(p.w, code.index) && p.s.stack.index < |p.s.words|
                  && caller == Caller(Next(p.w, code.index), p.s.stack.index)
    ensures Holds(q) && Evolves(p, q) && q.st == p.st && q.w.vars == p.w.vars
    ensures if tail then ContinuationOf(p.s) == Run.Ok(k) && q == p
            else AllocateOf(p.s, Pointer(code), Pointer(p.s.stack)) == Run.Ok(q.s) && k == Fresh(p.s)
    ensures IsReturn(q.w, k.index, caller) && q.s == p.s.(words := q.s.words) && k.index < |q.s.words|
  {
    hide IsData, HasPrimitive, Evolves, Holds, HasFrame, LinksIn;
    HoldsFixed(p);
    if tail {
      LinksAgree(p, links);
      FindsFrame(p.w, links, p.s, p.s.stack, n, |p.s.words|, caller);
      var f := FrameFrom(p.s, p.s.stack, |p.s.words|).value;
      k, q := p.w.fixed[f.index].cons, p;
      assert CarOf(p.s, f) == Run.Ok(p.w.fixed[f.index]);
      EvolvesRefl(p);
    } else {
      k, q := Fresh(p.s), Made(p, Pointer(code), Pointer(p.s.stack));
      CellMade(p, Pointer(code), Pointer(p.s.stack));
    }
  }

  lemma {:induction false} ProcedureFields(p: Point, i: Cons)
    requires Holds(p) && IsProcedure(p.w, i.index)
    ensures ConsAtCar(p.s, i) == Run.Ok(p.w.fixed[i.index].cons)
    ensures ConsAtCdr(p.s, i) == Run.Ok(p.w.fixed[i.index + 1].cons)
    ensures p.w.fixed[i.index + 1].cons.tag == PROCEDURE
  {
  }

  lemma {:induction false} ProcedureGrows(w: World, w': World, i: nat)
    requires Grows(w, w') && IsProcedure(w, i)
    ensures IsProcedure(w', i) && w'.fixed[i] == w.fixed[i] && w'.fixed[i + 1] == w.fixed[i + 1]
  {
  }

  lemma {:induction false} MakeFrameCell(p: Point, k: Cons, caller: Caller) returns (q: Point)
    requires Holds(p) && IsProcedure(p.w, p.s.code.index) && IsReturn(p.w, k.index, caller)
    requires k.index < |p.s.words|
    ensures Holds(q) && Evolves(p, q) && q.st == p.st && q.w.vars == p.w.vars
    ensures var environment, body := p.w.fixed[p.s.code.index + 1].cons, p.w.fixed[p.s.code.index].cons;
            && AllocateOf(p.s, Pointer(k), Pointer(environment.SetTag(FRAME)))
               == Run.Ok(Allocate(p.s, Pointer(k), Pointer(environment.SetTag(FRAME))))
            && ConsAtCar(Allocate(p.s, Pointer(k), Pointer(environment.SetTag(FRAME))), p.s.code) == Run.Ok(body)
            && q.s == Allocate(p.s, Pointer(k), Pointer(environment.SetTag(FRAME))).(stack := Fresh(p.s), code := body)
            && HasFrame(q.w, q.s.stack.index, 0, caller) && HasNext(q.w, q.s.stack.index)
            && Next(q.w, q.s.stack.index) == environment.index
  {
    hide IsData, HasPrimitive, Evolves, Holds, HasFrame;
    var environment, body := p.w.fixed[p.s.code.index + 1].cons, p.w.fixed[p.s.code.index].cons;
    var cdr := Pointer(environment.SetTag(FRAME));
    CellMade(p, Pointer(k), cdr);
    var p2 := Made(p, Pointer(k), cdr);
    ProcedureGrows(p.w, p2.w, p.s.code.index);
    ProcedureFields(p2, p.s.code);
    q := p2.(s := p2.s.(stack := Fresh(p.s), code := body));
    OnlyRoots(p2, q.s);
    EvolvesTrans(p, p2, q);
    FrameMade(q.w, |p.s.words|, k.index, caller) by {
      HoldsFixed(p);
    }
  }

  /** The procedure in the code field gets a frame for its caller. */
  lemma {:induction false} MakeFrame(p: Point, links: Links, code: Cons, tail: bool, n: nat, caller: Caller)
    returns (q: Point)
    requires Holds(p) && IsProcedure(p.w, p.s.code.index) && LinksIn(links, p.s.words)
    requires if tail then HasFrame(p.w, p.s.stack.index, n, caller, links) && n < |p.s.words|
             else code.index % 2 == 0 && HasNext(p.w, code.index) && p.s.stack.index < |p.s.words|
                  && caller == Caller(Next(p.w, code.index), p.s.stack.index)
    ensures Holds(q) && Evolves(p, q) && q.st == p.st && q.w.vars == p.w.vars
    ensures FrameOf(p.s, code, tail) == Run.Ok(q.s)
    ensures HasFrame(q.w, q.s.stack.index, 0, caller) && HasNext(q.w, q.s.stack.index)
    ensures Next(q.w, q.s.stack.index) == Next(p.w, p.s.code.index)
    ensures q.s.code == p.w.fixed[p.s.code.index].cons && q.s.register == p.s.register
  {
    hide IsData, HasPrimitive, Evolves, Holds, HasFrame, ContinuationOf, IsReturn, ConsAtCar, ConsAtCdr, AllocateOf;
    var k, p1 := MakeContinuation(p, links, code, tail, n, caller);
    assert Grows(p.w, p1.w) by {
      EvolvesGrows(p, p1);
    }
    ProcedureGrows(p.w, p1.w, p.s.code.index);
    ProcedureFields(p1, p.s.code);
    q := MakeFrameCell(p1, k, caller);
    EvolvesTrans(p, p1, q);
  }

  lemma {:induction false} EvolvesGrows(p: Point, q: Point)
    requires Evolves(p, q)
    ensures Grows(p.w, q.w)
  {
  }

  lemma {:induction false} FrameMade(w: World, i: nat, k: nat, caller: Caller)
    requires IsFixed(w, i) && w.fixed[i].Pointer? && w.fixed[i].cons.index == k && IsReturn(w, k, caller) && k < i
    requires w.fixed[i + 1].Pointer? && w.fixed[i + 1].cons.tag == FRAME
    ensures HasFrame(w, i, 0, caller)
  {
    NoLinks(w);
  }

  // ----- parameters -----

  /** The first `i` of the parameters `names` are bound above a frame. */
  ghost predicate Scope(p: Point, names: seq<Name>, i: nat, c: Context, env: Env, l: nat, free: set<Name>,
                        caller: Caller)
    requires i <= |names|
  {
    && Holds(p) && |p.st| == l + i
    && HasEnv(p.w, FrameContext(names[..i]) + c, p.s.stack.index, BindNames(env, names[..i], l),
              free - Named(names[i..]))
    && HasFrame(p.w, p.s.stack.index, i, caller) && i < |p.s.words|
  }

  lemma {:induction false} FrameInside(p: Point, links: Links, i: nat, n: nat, caller: Caller)
    requires Holds(p) && LinksIn(links, p.s.words) && HasFrame(p.w, i, n, caller, links)
    ensures i < |p.s.words|
  {
    LinksAgree(p, links);
  }

  lemma {:induction false} BindNamesLast(env: Env, names: seq<Name>, l: nat, i: nat)
    requires i < |names|
    ensures BindNames(env, names[..i + 1], l) == BindNames(env, names[..i], l)[names[i] := l + i]
    decreases i
  {
    if i == 0 {
      assert names[..1][1..] == [];
    } else {
      BindNamesLast(env[names[0] := l], names[1..], l + 1, i - 1);
      assert names[..i + 1][1..] == names[1..][..i];
      assert names[..i][1..] == names[1..][..i - 1];
    }
  }

  lemma {:induction false} FrameContextLast(names: seq<Name>, i: nat, c: Context)
    requires i < |names|
    ensures FrameContext(names[..i + 1]) + c == [Local(names[i])] + (FrameContext(names[..i]) + c)
  {
    assert names[..i + 1][..i] == names[..i];
  }

  lemma {:induction false} NamedFrom(names: seq<Name>, i: nat, free: set<Name>)
    requires i < |names|
    ensures free - Named(names[i..]) == (free - Named(names[i + 1..])) - {names[i]}
  {
    assert names[i..] == [names[i]] + names[i + 1..];
  }

  /** A pushed value becomes the next parameter. */
  lemma {:induction false} PushParameter(p: Point, names: seq<Name>, i: nat, c: Context, env: Env, l: nat,
                                         free: set<Name>, caller: Caller, d: Data, v: Value)
    returns (q: Point)
    requires i < |names| && Scope(p, names, i, c, env, l, free, caller) && IsData(p.w, d, v)
    ensures PushOf(p.s, v) == Run.Ok(q.s) && q.st == p.st + [d] && Evolves(p, q)
    ensures Scope(q, names, i + 1, c, env, l, free, caller)
  {
    hide IsData, HasPrimitive, HasEnv, HasFrame, BindNames, FrameContext, Named, PushOf;
    var base := p.s.stack.index;
    FrameInside(p, map[], base, i, caller);
    Pushed(p, d, v);
    var p1 := p.(s := PushOf(p.s, v).value);
    var t := p1.s.stack.index;
    Covering(p1, d, base, false, |p.s.words|);
    CoveringEvolves(p, p1, d, base, false);
    var p2 := Covered(p1);
    VarAdded(p2, t, d);
    q := AddVar(p2, t, d);
    AddedEvolves(p, p2, t, d);
    var inner, scope := FrameContext(names[..i]) + c, BindNames(env, names[..i], l);
    EnvGrows(p.w, q.w, inner, base, scope, free - Named(names[i..]));
    NamedFrom(names, i, free);
    EnvBinds(q.w, inner, t, base, scope, free - Named(names[i + 1..]), names[i], l + i);
    BindNamesLast(env, names, l, i);
    FrameContextLast(names, i, c);
    FrameGrows(p.w, q.w, base, i, caller);
    NoLinks(q.w);
    FrameBelow(q.w, t, base, i, caller);
  }

  lemma {:induction false} AddedEvolves(p: Point, q: Point, t: nat, d: Data, own: set<nat> := {})
    requires Evolves(p, q, own) && |p.s.words| <= t
    ensures Evolves(p, AddVar(q, t, d), own)
  {
  }

  lemma {:induction false} ListHead(w: World, values: seq<Data>, v: Value)
    requires values != [] && IsData(w, ListOf(values), v)
    ensures v.Pointer? && IsFixed(w, v.cons.index) && v.cons.index != w.nil
    ensures IsData(w, values[0], w.fixed[v.cons.index])
    ensures w.fixed[v.cons.index + 1].Pointer? && IsData(w, ListOf(values[1..]), w.fixed[v.cons.index + 1])
  {
    ListIsPointer(w, ListOf(values[1..]), w.fixed[v.cons.index + 1]) by {
      ListOfIsList(values[1..]);
    }
  }

  lemma {:induction false} ListOfIsList(values: seq<Data>)
    ensures IsList(ListOf(values))
  {
    if values != [] {
      ListOfIsList(values[1..]);
    }
  }

  lemma {:induction false} ListEnd(w: World, v: Value)
    requires IsData(w, ListOf([]), v)
    ensures v.Pointer? && v.cons.index == w.nil
  {
  }

  lemma {:induction false} ShiftParameter(p: Point, names: seq<Name>, i: nat, c: Context, env: Env, l: nat,
                                          free: set<Name>, caller: Caller, values: seq<Data>)
    returns (q: Point)
    requires i < |names| && Scope(p, names, i, c, env, l, free, caller)
    requires values != [] && IsData(p.w, ListOf(values), Pointer(p.s.register))
    ensures ShiftOf(p.s) == Run.Ok(q.s) && q.st == p.st + [values[0]] && Evolves(p, q)
    ensures Scope(q, names, i + 1, c, env, l, free, caller)
    ensures IsData(q.w, ListOf(values[1..]), Pointer(q.s.register))
  {
    hide IsData, HasPrimitive, HasEnv, HasFrame, BindNames, FrameContext, Named, Holds, Evolves, ListOf, HasCode;
    var r := p.s.register;
    ListHead(p.w, values, Pointer(r));
    HoldsFixed(p);
    assert CarOf(p.s, r) == Run.Ok(p.w.fixed[r.index]);
    var q1 := PushParameter(p, names, i, c, env, l, free, caller, values[0], p.w.fixed[r.index]);
    assert Grows(p.w, q1.w) by {
      EvolvesGrows(p, q1);
    }
    HoldsFixed(q1);
    var rest := p.w.fixed[r.index + 1].cons;
    assert CdrOf(q1.s, r) == Run.Ok(Pointer(rest));
    DataGrows(p.w, q1.w, ListOf(values[1..]), Pointer(rest));
    q := q1.(s := q1.s.(register := rest));
    OnlyRoots(q1, q.s);
    EvolvesTrans(p, q1, q);
    assert q1.s.register == r;
  }

  /** Parameters are bound in order, or there are too few arguments. */
  lemma {:induction false} BindSome(p: Point, names: seq<Name>, i: nat, count: nat, c: Context, env: Env, l: nat,
                                    free: set<Name>, caller: Caller, values: seq<Data>)
    returns (q: Point)
    requires i <= count <= |names| && i <= |values| && Scope(p, names, i, c, env, l, free, caller)
    requires IsData(p.w, ListOf(values[i..]), Pointer(p.s.register))
    ensures count > |values| ==> BindParameters(p.s, count - i).Failed?
    ensures count > |values| ==> BindParameters(p.s, count - i).error == ArgumentCount
    ensures count <= |values| ==>
      && BindParameters(p.s, count - i) == Run.Ok(q.s)
      && Scope(q, names, count, c, env, l, free, caller)
      && IsData(q.w, ListOf(values[count..]), Pointer(q.s.register))
      && q.st == p.st + values[i..count] && Evolves(p, q)
    decreases count - i
  {
    hide IsData, Scope, Evolves, ListOf, ShiftOf, NullOf;
    q := p;
    if i == count {
      EvolvesRefl(p);
    } else {
      NullOfScope(p, names, i, c, env, l, free, caller);
      if i == |values| {
        assert values[i..] == [];
        ListEnd(p.w, Pointer(p.s.register));
      } else {
        assert values[i..][0] == values[i] && values[i..][1..] == values[i + 1..];
        ListHead(p.w, values[i..], Pointer(p.s.register));
        var p1 := ShiftParameter(p, names, i, c, env, l, free, caller, values[i..]);
        q := BindSome(p1, names, i + 1, count, c, env, l, free, caller, values);
        if count <= |values| {
          EvolvesTrans(p, p1, q);
          assert values[i..count] == [values[i]] + values[i + 1..count];
        }
      }
    }
  }

  lemma {:induction false} NullOfScope(p: Point, names: seq<Name>, i: nat, c: Context, env: Env, l: nat,
                                       free: set<Name>, caller: Caller)
    requires i <= |names| && Scope(p, names, i, c, env, l, free, caller)
    ensures NullOf(p.s).Ok? && NullOf(p.s).value.index == p.w.nil
  {
    NullIsNil(p);
  }

  /** All parameters are bound exactly when the arguments fit them. */
  lemma {:induction false} BindEach(p: Point, f: Procedure, c: Context, env: Env, l: nat, free: set<Name>,
                                    caller: Caller, values: seq<Data>)
    returns (q: Point)
    requires Scope(p, f.names, 0, c, env, l, free, caller)
    requires IsData(p.w, ListOf(values), Pointer(p.s.register))
    ensures var r := BindAll(p.s, ArityOf(f));
            if Fits(|values|, ArityOf(f))
            then r == Run.Ok(q.s) && Scope(q, f.names, |f.names|, c, env, l, free, caller)
                 && q.st == p.st + ParameterValues(ArityOf(f), values) && Evolves(p, q)
            else r.Failed? && r.error == ArgumentCount
  {
    hide IsData, Scope, Evolves, ListOf, PushOf, NullOf, BindParameters;
    var names, count := f.names, ArityOf(f).count;
    assert values[0..] == values;
    q := BindSome(p, names, 0, count, c, env, l, free, caller, values);
    if count <= |values| {
      if ArityOf(f).variadic {
        var q1 := q;
        q := PushParameter(q1, names, count, c, env, l, free, caller, ListOf(values[count..]), Pointer(q1.s.register))
          by {
            assert Scope(q1, names, count, c, env, l, free, caller);
          }
        EvolvesTrans(p, q1, q);
      } else {
        NullOfScope(q, names, count, c, env, l, free, caller);
        if count == |values| {
          assert values[count..] == [] && values[..count] == values;
          ListEnd(q.w, Pointer(q.s.register));
        } else {
          ListHead(q.w, values[count..], Pointer(q.s.register));
        }
      }
    }
  }

  // ----- entering -----

  /** What a call needs to know of its caller: where its own frame is if it is a tail call, and otherwise the
      instruction itself. */
  ghost predicate ReturnsTo(p: Point, links: Links, tail: bool, base: nat, n: nat, caller: Caller) {
    HasNext(p.w, p.s.code.index) && LinksIn(links, p.s.words) && base < |p.s.words| &&
    if tail then HasFrame(p.w, base, n, caller, links) && n < |p.s.words|
    else caller == Caller(Next(p.w, p.s.code.index), base)
  }

  lemma {:induction false} ClosureGrows(w: World, w': World, i: nat, f: Procedure, env: Env, c: Context)
    requires Grows(w, w') && IsProcedure(w, i) && ClosesOver(w, i, f, env, c)
    ensures IsProcedure(w', i) && ClosesOver(w', i, f, env, c)
    ensures w'.fixed[i] == w.fixed[i] && w'.fixed[i + 1] == w.fixed[i + 1]
  {
    CodeGrows(w, w', Next(w, w.fixed[i].cons.index), CompileProcedure(c, f).body);
    EnvGrows(w, w', c, Next(w, i), env, Free(Lambda(f)));
  }

  lemma {:induction false} FrameScope(p: Point, f: Procedure, env: Env, c: Context, i: nat, caller: Caller)
    requires Holds(p) && IsProcedure(p.w, i) && ClosesOver(p.w, i, f, env, c)
    requires HasFrame(p.w, p.s.stack.index, 0, caller) && HasNext(p.w, p.s.stack.index)
    requires Next(p.w, p.s.stack.index) == Next(p.w, i)
    ensures Scope(p, f.names, 0, c, env, |p.st|, FreeInSequence(f.body), caller)
  {
    hide IsData, HasPrimitive, HasEnv, HasFrame, CompileProcedure;
    assert f.names[0..] == f.names;
    EnvBelow(p.w, c, p.s.stack.index, Next(p.w, i), env, Free(Lambda(f)));
  }

  /** A procedure is entered exactly when the arguments fit its parameters. */
  lemma {:induction false} EnterOn(p: Point, procedure: Cons, f: Procedure, env: Env, c: Context, temps: seq<Data>,
                                   base: nat, a: Arity, tail: bool, n: nat, caller: Caller, links: Links)
    returns (q: Point)
    requires Holds(p) && Temps(p, p.s.stack.index, temps, base) && ReturnsTo(p, links, tail, base, n, caller)
    requires IsProcedure(p.w, procedure.index) && ClosesOver(p.w, procedure.index, f, env, c)
    requires Spread(temps, a.variadic).Done? && |temps| == if a.variadic then a.count + 1 else a.count
    ensures var values, r := Spread(temps, a.variadic).value, EnterOf(p.s, procedure, a, ArityOf(f), tail);
            if Fits(|values|, ArityOf(f))
            then && r == Run.Ok(q.s) && Evolves(p, q) && q.st == p.st + ParameterValues(ArityOf(f), values)
                 && Scope(q, f.names, |f.names|, c, env, |p.st|, FreeInSequence(f.body), caller)
                 && q.s.code == p.w.fixed[procedure.index].cons
            else r.Failed? && r.error == ArgumentCount
  {
    hide IsData, HasPrimitive, Evolves, Holds, Temps, ClosesOver, HasEnv, HasFrame, Scope, ListOf, BindAll, Spread,
         ParameterValues, FreeInSequence, FrameOf, ArgumentsOf, IsProcedure, LinksIn;
    var p0 := p.(s := p.s.(register := procedure));
    OnlyRoots(p, p0.s);
    TempsEvolve(p, p0, p.s.stack.index, temps, base);
    var p1 := CollectAll(p0, temps, base, a);
    EvolvesTrans(p, p0, p1);
    var list := ArgumentsOf(p0.s, a).value.1;
    var p2 := p1.(s := p1.s.(code := procedure, register := list));
    OnlyRoots(p1, p2.s);
    EvolvesTrans(p, p1, p2);
    EvolvesGrows(p, p2);
    ClosureGrows(p.w, p2.w, procedure.index, f, env, c);
    WordsGrow(p, p2);
    LinksStay(p, p2, links);
    if tail {
      FrameGrows(p.w, p2.w, base, n, caller, links);
    }
    var p3 := MakeFrame(p2, links, p.s.code, tail, n, caller);
    EvolvesTrans(p, p2, p3);
    EvolvesGrows(p2, p3);
    ClosureGrows(p2.w, p3.w, procedure.index, f, env, c);
    FrameScope(p3, f, env, c, procedure.index, caller);
    DataGrows(p2.w, p3.w, ListOf(Spread(temps, a.variadic).value), Pointer(list));
    q := BindEach(p3, f, c, env, |p.st|, FreeInSequence(f.body), caller, Spread(temps, a.variadic).value);
    if Fits(|Spread(temps, a.variadic).value|, ArityOf(f)) {
      EvolvesTrans(p, p3, q);
      BindKeepsCode(p3.s, ArityOf(f));
    }
  }

  lemma {:induction false} WordsGrow(p: Point, q: Point)
    requires Evolves(p, q)
    ensures |p.s.words| <= |q.s.words|
  {
  }

  lemma {:induction false} BindSomeKeepsCode(s: Store, n: nat)
    requires BindParameters(s, n).Ok?
    ensures BindParameters(s, n).value.code == s.code
    decreases n
  {
    if n > 0 {
      BindSomeKeepsCode(ShiftOf(s).value, n - 1);
    }
  }

  lemma {:induction false} BindKeepsCode(s: Store, a: Arity)
    requires BindAll(s, a).Ok?
    ensures BindAll(s, a).value.code == s.code
  {
    BindSomeKeepsCode(s, a.count);
  }

  // ----- the call instruction -----

  /** A call instruction with its arguments on the stack and its procedure at its operand. */
  ghost predicate Calling(p: Point, a: Arity, k: Code, d: Data, temps: seq<Data>, base: nat) {
    && Holds(p) && At(p, k) && p.s.code.index != p.w.nil && InstructionAt(p).tag == CALL + BuildArity(a)
    && OperandCons(p.s).Ok? && IsCell(p.s, OperandCons(p.s).value)
    && IsData(p.w, d, Car(p.s, OperandCons(p.s).value))
    && Temps(p, p.s.stack.index, temps, base)
    && |temps| == if a.variadic then a.count + 1 else a.count
  }

  lemma {:induction false} ClosureIsProcedure(w: World, f: Procedure, env: Env, v: Value) returns (c: Context)
    requires IsData(w, Closure(f, env), v)
    ensures v.Pointer? && IsProcedure(w, v.cons.index) && ClosesOver(w, v.cons.index, f, env, c)
  {
    c :| ClosesOver(w, v.cons.index, f, env, c);
  }

  lemma {:induction false} ClosureCode(p: Point, procedure: Cons, f: Procedure, env: Env, c: Context)
    requires Holds(p) && IsProcedure(p.w, procedure.index) && ClosesOver(p.w, procedure.index, f, env, c)
    ensures CarOf(p.s, procedure) == Run.Ok(p.w.fixed[procedure.index])
    ensures CarOf(p.s, p.w.fixed[procedure.index].cons) == Run.Ok(Number(BuildArity(ArityOf(f))))
  {
  }

  /** What the call instruction does is to enter the procedure. */
  lemma {:induction false} CallIsEnter(p: Point, a: Arity, k: Code, f: Procedure, env: Env, temps: seq<Data>,
                                       base: nat)
    returns (procedure: Cons, c: Context)
    requires Calling(p, a, k, Closure(f, env), temps, base) && IsContinuation(k)
    ensures IsProcedure(p.w, procedure.index) && ClosesOver(p.w, procedure.index, f, env, c)
    ensures ExecuteOf(p.s, InstructionAt(p)) == EnterOf(p.s, procedure, a, ArityOf(f), k.Return?)
  {
    hide IsData, HasPrimitive, Evolves, Holds, Temps, ClosesOver, HasEnv, OperandCons, HasCode, EnterOf;
    var v := Car(p.s, OperandCons(p.s).value);
    c := ClosureIsProcedure(p.w, f, env, v);
    procedure := v.cons;
    ArityRoundTrip(a, 0);
    ArityRoundTrip(ArityOf(f), 0);
    ProcedureFields(p, procedure);
    ClosureCode(p, procedure, f, env, c);
    NullIsNil(p);
    InstructionIsNull(p, k);
    assert ProcedureOf(p.s) == Run.Ok(procedure);
    CalledIsEntered(p.s, InstructionAt(p), procedure, a, ArityOf(f));
  }

  lemma {:induction false} CalledIsEntered(s: Store, instruction: Cons, procedure: Cons, a: Arity, parameters: Arity)
    requires instruction.tag == CALL + BuildArity(a) && ProcedureOf(s) == Run.Ok(procedure) && NullOf(s).Ok?
    requires ConsAtCdr(s, procedure).Ok? && ConsAtCdr(s, procedure).value.tag == PROCEDURE
    requires CarOf(s, procedure).Ok? && CarOf(s, procedure).value.Pointer?
    requires CarOf(s, CarOf(s, procedure).value.cons) == Run.Ok(Number(BuildArity(parameters)))
    ensures ExecuteOf(s, instruction) == EnterOf(s, procedure, a, parameters, instruction.Same(NullOf(s).value))
  {
    hide EnterOf, ProcedureOf, NullOf, ConsAtCdr, CarOf;
    ArityRoundTrip(a, 0);
    ArityRoundTrip(parameters, 0);
    assert ParseArity(BuildArity(a)) == a;
    assert AsNat(Number(BuildArity(parameters))) == Run.Ok(BuildArity(parameters));
    var r := EnterOf(s, procedure, a, parameters, instruction.Same(NullOf(s).value));
    assert CallOf(s, instruction, BuildArity(a))
        == if r.Ok? then Run.Ok(Called.Entered(r.value)) else if r.Failed? then Failed(r.store, r.error) else Stuck;
  }

  /** One step of the machine carries out the call and fetches the first instruction of the procedure. */
  lemma {:induction false} CallClosure(p: Point, a: Arity, k: Code, f: Procedure, env: Env, temps: seq<Data>,
                                       base: nat, n: nat, caller: Caller, links: Links)
    returns (q: Point, c: Context)
    requires Calling(p, a, k, Closure(f, env), temps, base) && IsContinuation(k) && Spread(temps, a.variadic).Done?
    requires ReturnsTo(p, links, k.Return?, base, n, caller)
    ensures var values := Spread(temps, a.variadic).value;
            if Fits(|values|, ArityOf(f))
            then && Runs(p, 1, q, {}, if k.Return? then 0 else 1) && q.st == p.st + ParameterValues(ArityOf(f), values)
                 && Scope(q, f.names, |f.names|, c, env, |p.st|, FreeInSequence(f.body), caller)
                 && HasCode(q.w, q.s.code.index, CompileProcedure(c, f).body)
                 && Compilable(Lambda(f)) && Analyzed(NamesOf(c), Lambda(f))
            else Fails(p.s, 1, ArgumentCount)
  {
    hide IsData, HasPrimitive, Evolves, Holds, Temps, HasEnv, OperandCons, HasCode, EnterOf, ExecuteOf, AdvanceOf,
         Spread, ParameterValues, HasFrame, FreeInSequence, Scope, Reaches, Fails, CompileSequence;
    var procedure;
    procedure, c := CallIsEnter(p, a, k, f, env, temps, base);
    var values := Spread(temps, a.variadic).value;
    var q1 := EnterOn(p, procedure, f, env, c, temps, base, a, k.Return?, n, caller, links);
    if Fits(|values|, ArityOf(f)) {
      EvolvesGrows(p, q1);
      ClosureGrows(p.w, q1.w, procedure.index, f, env, c);
      var body := CompileProcedure(c, f).body;
      ScopeHolds(q1, f.names, c, env, |p.st|, FreeInSequence(f.body), caller);
      SequenceContinues(FrameContext(f.names) + c, f.body, Return);
      AdvanceTo(q1, body);
      CallStep(p, a, k, Closure(f, env), temps, base, q1, body);
      q := q1.(s := AdvanceOf(q1.s).value);
      OnlyRoots(q1, q.s);
      EvolvesTrans(p, q1, q);
      ScopeStays(q1, q, f.names, c, env, |p.st|, FreeInSequence(f.body), caller);
    } else {
      q := p;
      FailedStep(p, k);
    }
  }

  /** A call of a closure takes its arguments from the frame; it is one more call unless it is a tail call. */
  lemma {:induction false} CallStep(p: Point, a: Arity, k: Code, d: Data, temps: seq<Data>, base: nat, q: Point,
                                    body: Code)
    requires Calling(p, a, k, d, temps, base) && IsContinuation(k) && d.Closure?
    requires ExecuteOf(p.s, InstructionAt(p)) == Run.Ok(q.s) && AdvanceOf(q.s).Ok?
    requires Holds(q) && At(q, body) && Continues(body) && q.w.nil == p.w.nil
    ensures Reaches(p.s, 1, AdvanceOf(q.s).value, if k.Return? then 0 else 1)
  {
    hide IsData, Evolves, Temps, OperandCons, HasCode, ExecuteOf, AdvanceOf, Reaches, Depth.Height, HasPrimitive;
    CallStays(p, a, k, d, temps, base);
    NotAtEnd(q, body);
    InstructionIsNull(p, k);
    OneStep(p, k, q.s);
  }

  lemma {:induction false} InstructionIsNull(p: Point, k: Code)
    requires At(p, k) && IsContinuation(k)
    ensures InstructionAt(p).index == p.w.nil <==> k.Return?
  {
    hide HasCode;
    if k.Return? {
      ReturnIsNil(p.w, Next(p.w, p.s.code.index));
    } else {
      CodeContinues(p.w, Next(p.w, p.s.code.index), k);
    }
  }

  lemma {:induction false} NotAtEnd(q: Point, body: Code)
    requires Holds(q) && At(q, body) && Continues(body)
    ensures !IsAtEnd(q.s)
  {
    hide IsData, HasPrimitive;
    NullIsNil(q);
    CodeContinues(q.w, Next(q.w, q.s.code.index), body);
  }

  lemma {:induction false} CallStays(p: Point, a: Arity, k: Code, d: Data, temps: seq<Data>, base: nat)
    requires Calling(p, a, k, d, temps, base) && d.Closure?
    ensures Depth.IsClosureCall(p.s, InstructionAt(p)) && Depth.StaysInFrame(p.s, InstructionAt(p))
  {
    hide Temps, OperandCons, HasCode, Depth.Height, HasPrimitive, HoldsVar, ClosesOver;
    HoldsFixed(p);
    TempsAreHigh(p, p.s.stack.index, temps, base);
    ArityRoundTrip(a, 0);
    var v := Car(p.s, OperandCons(p.s).value);
    assert IsProcedure(p.w, v.cons.index);
    assert ProcedureOf(p.s) == Run.Ok(v.cons);
  }

  lemma {:induction false} ScopeHolds(p: Point, names: seq<Name>, c: Context, env: Env, l: nat, free: set<Name>,
                                      caller: Caller)
    requires Scope(p, names, |names|, c, env, l, free, caller)
    ensures Holds(p)
  {
  }

  lemma {:induction false} ScopeStays(p: Point, q: Point, names: seq<Name>, c: Context, env: Env, l: nat,
                                      free: set<Name>, caller: Caller)
    requires Scope(p, names, |names|, c, env, l, free, caller) && Holds(q)
    requires q == p.(s := p.s.(code := q.s.code))
    ensures Scope(q, names, |names|, c, env, l, free, caller)
  {
  }

  lemma {:induction false} FailedStep(p: Point, k: Code)
    requires Holds(p) && At(p, k) && p.s.code.index != p.w.nil && ExecuteOf(p.s, InstructionAt(p)).Failed?
    ensures Fails(p.s, 1, ExecuteOf(p.s, InstructionAt(p)).error)
  {
    hide ExecuteOf, IsData, HasCode;
    Depth.NoSteps(p.s);
    NullIsNil(p);
    assert CdrOf(p.s, p.s.code) == Run.Ok(p.w.fixed[p.s.code.index + 1]);
    assert StepOf(p.s).Failed?;
  }

  // ----- values that are no procedures -----

  lemma {:induction false} NoProcedureIsOther(p: Point, d: Data, v: Value)
    requires Holds(p) && IsData(p.w, d, v) && IsNoProcedure(d)
    ensures v.Pointer? && IsOther(p.w, v.cons.index)
  {
    hide HasPrimitive, HoldsVar, IsClosure;
    if d.Rib? {
      CdrIsPointer(p.w, d.cdr, p.w.fixed[v.cons.index + 1]);
    }
  }

  lemma {:induction false} CdrIsPointer(w: World, d: Data, v: Value)
    requires IsData(w, d, v) && !(d.Plain? && d.literal.Datum? && d.literal.value.Number?)
    ensures v.Pointer?
  {
  }

  /** Calling them fails, whatever the arguments. */
  lemma {:induction false} CallOther(p: Point, a: Arity, k: Code, d: Data, temps: seq<Data>, base: nat)
    requires Calling(p, a, k, d, temps, base) && IsNoProcedure(d)
    ensures Fails(p.s, 1, ProcedureExpected)
  {
    hide IsData, Temps, HasCode, OperandCons, HasPrimitive, HoldsVar, IsNoProcedure;
    var v := Car(p.s, OperandCons(p.s).value);
    NoProcedureIsOther(p, d, v);
    HoldsFixed(p);
    assert ProcedureOf(p.s) == Run.Ok(v.cons);
    assert ConsAtCdr(p.s, v.cons) == Run.Ok(p.w.fixed[v.cons.index + 1].cons);
    assert ExecuteOf(p.s, InstructionAt(p)) == Failed(p.s, ProcedureExpected);
    FailedStep(p, k);
  }

  // ----- making ribs -----

  lemma {:induction false} RibMade(p: Point, a: Data, x: Value, b: Data, y: Value, tag: nat)
    requires Holds(p) && IsData(p.w, a, x) && IsData(p.w, b, y)
    ensures var q := Made(p, x, y.SetTag(tag));
            && MakeRib(p.s, x, y, tag) == PushOf(q.s, Pointer(Fresh(p.s)))
            && Holds(q) && Evolves(p, q) && IsData(q.w, Rib(a, b, tag), Pointer(Fresh(p.s)))
  {
    hide HasPrimitive;
    var q := Made(p, x, y.SetTag(tag));
    CellMade(p, x, y.SetTag(tag));
    DataIsNotNever(p.w, a, x);
    DataGrows(p.w, q.w, a, x);
    DataIgnoresTag(p.w, b, y, y.SetTag(tag));
    DataGrows(p.w, q.w, b, y.SetTag(tag));
  }

  /** Three values are popped from the stack. */
  lemma {:induction false} PopThree(p: Point, temps: seq<Data>, base: nat)
    returns (x: Value, y: Value, v: Value, s: Store)
    requires Holds(p) && |temps| == 3 && Temps(p, p.s.stack.index, temps, base)
    ensures PopOf(p.s).Ok? && PopOf(p.s).value.0 == v
    ensures var s1 := PopOf(p.s).value.1; PopOf(s1).Ok? && PopOf(s1).value.0 == y
    ensures var s2 := PopOf(PopOf(p.s).value.1).value.1; PopOf(s2) == Run.Ok((x, s))
    ensures s == p.s.(stack := s.stack) && s.stack.index == base
    ensures IsData(p.w, temps[0], x) && IsData(p.w, temps[1], y) && IsData(p.w, temps[2], v)
  {
    hide IsData, HasPrimitive, Evolves, Holds, Temps, PopOf;
    var two := temps[..2];
    var one := two[..1];
    assert two[1] == temps[1] && one[0] == temps[0] && one[..0] == [];
    PopTemp(p, temps, base);
    var s1, s2;
    v, s1 := PopOf(p.s).value.0, PopOf(p.s).value.1;
    OnlyRoots(p, s1);
    TempsEvolve(p, p.(s := s1), s1.stack.index, two, base);
    PopTemp(p.(s := s1), two, base);
    y, s2 := PopOf(s1).value.0, PopOf(s1).value.1;
    OnlyRoots(p, s2);
    OnlyRoots(p.(s := s1), s2);
    TempsEvolve(p.(s := s1), p.(s := s2), s2.stack.index, one, base);
    PopTemp(p.(s := s2), one, base);
    x, s := PopOf(s2).value.0, PopOf(s2).value.1;
    OnlyRoots(p.(s := s2), s);
    TempsEvolve(p.(s := s2), p.(s := s), s.stack.index, [], base);
    NoTemps(p.(s := s), base);
  }

  // ----- spreading arguments -----

  lemma {:induction false} PushTemp(p: Point, temps: seq<Data>, base: nat, d: Data, v: Value) returns (q: Point)
    requires Holds(p) && Temps(p, p.s.stack.index, temps, base) && base < |p.s.words| && IsData(p.w, d, v)
    ensures PushOf(p.s, v) == Run.Ok(q.s) && Holds(q) && Evolves(p, q) && q.st == p.st
    ensures Temps(q, q.s.stack.index, temps + [d], base) && q.s == p.s.(words := q.s.words, stack := q.s.stack)
  {
    hide IsData, HasPrimitive, Holds, Evolves, Temps, PushOf;
    TempsInside(p, p.s.stack.index, temps, base);
    Pushed(p, d, v);
    var p1 := p.(s := PushOf(p.s, v).value);
    Covering(p1, d, p.s.stack.index, false, |p.s.words|);
    CoveringEvolves(p, p1, d, p.s.stack.index, false);
    q := Covered(p1);
    TempsEvolve(p, q, p.s.stack.index, temps, base);
    TempOnTop(p1, q, temps, p.s.stack.index, base, d, |p.s.words|);
  }

  lemma {:induction false} TempsInside(p: Point, t: nat, temps: seq<Data>, base: nat)
    requires Temps(p, t, temps, base) && base < |p.s.words|
    ensures t < |p.s.words|
  {
    hide IsData;
  }

  lemma {:induction false} TempOnTop(p: Point, q: Point, temps: seq<Data>, t: nat, base: nat, d: Data, low: nat)
    requires IsTop(p, d, t, false, low) && q == Covered(p) && Temps(q, t, temps, base)
    requires IsData(q.w, d, p.s.words[p.s.stack.index])
    ensures Temps(q, q.s.stack.index, temps + [d], base)
  {
    hide IsData;
    assert (temps + [d])[..|temps|] == temps;
  }

  /** The elements of the list in the register join the values on the stack. */
  lemma {:induction false} SpreadTemps(p: Point, temps: seq<Data>, items: seq<Data>, base: nat, fuel: nat)
    returns (q: Point)
    requires Holds(p) && Temps(p, p.s.stack.index, temps, base) && base < |p.s.words| && |items| < fuel
    requires IsData(p.w, ListOf(items), Pointer(p.s.register))
    ensures SpreadList(p.s, fuel) == Run.Ok(q.s) && Holds(q) && Evolves(p, q) && q.st == p.st
    ensures Temps(q, q.s.stack.index, temps + items, base) && q.s.code == p.s.code
    decreases fuel
  {
    hide IsData, HasPrimitive, Holds, Evolves, Temps, PushOf, ListOf, ShiftOf;
    NullIsNil(p);
    if items == [] {
      ListEnd(p.w, Pointer(p.s.register));
      EvolvesRefl(p);
      assert temps + items == temps;
      q := p;
    } else {
      ListHead(p.w, items, Pointer(p.s.register));
      var p1 := ShiftTemp(p, temps, items, base);
      WordsGrow(p, p1);
      q := SpreadTemps(p1, temps + [items[0]], items[1..], base, fuel - 1);
      EvolvesTrans(p, p1, q);
      assert (temps + [items[0]]) + items[1..] == temps + items;
    }
  }

  lemma {:induction false} ShiftTemp(p: Point, temps: seq<Data>, items: seq<Data>, base: nat) returns (q: Point)
    requires Holds(p) && Temps(p, p.s.stack.index, temps, base) && base < |p.s.words| && items != []
    requires IsData(p.w, ListOf(items), Pointer(p.s.register))
    ensures ShiftOf(p.s) == Run.Ok(q.s) && Holds(q) && Evolves(p, q) && q.st == p.st && q.s.code == p.s.code
    ensures Temps(q, q.s.stack.index, temps + [items[0]], base)
    ensures IsData(q.w, ListOf(items[1..]), Pointer(q.s.register))
  {
    hide IsData, HasPrimitive, Holds, Evolves, Temps, ListOf;
    var r := p.s.register;
    ListHead(p.w, items, Pointer(r));
    HoldsFixed(p);
    assert CarOf(p.s, r) == Run.Ok(p.w.fixed[r.index]);
    var q1 := PushTemp(p, temps, base, items[0], p.w.fixed[r.index]);
    EvolvesGrows(p, q1);
    HoldsFixed(q1);
    var rest := p.w.fixed[r.index + 1].cons;
    assert CdrOf(q1.s, r) == Run.Ok(Pointer(rest));
    DataGrows(p.w, q1.w, ListOf(items[1..]), Pointer(rest));
    q := q1.(s := q1.s.(register := rest));
    OnlyRoots(q1, q.s);
    EvolvesTrans(p, q1, q);
    TempsEvolve(q1, q, q.s.stack.index, temps + [items[0]], base);
  }

  /** A list of the program is a list in the heap, and so it is not longer than the heap. */
  lemma {:induction false} ListIsInHeap(w: World, words: seq<Value>, items: seq<Data>, c: Cons)
    returns (values: seq<Value>)
    requires FixedIn(w, words) && IsData(w, ListOf(items), Pointer(c))
    ensures |values| == |items| && Calls.ListAt(words, c, values, Cons(w.nil, 0), PAIR)
  {
    if items == [] {
      ListEnd(w, Pointer(c));
      values := [];
    } else {
      ListHead(w, items, Pointer(c));
      ListTag(w, items, Pointer(c));
      var rest := ListIsInHeap(w, words, items[1..], w.fixed[c.index + 1].cons);
      values := [words[c.index]] + rest;
      assert values[1..] == rest;
    }
  }

  lemma {:induction false} ListTag(w: World, items: seq<Data>, v: Value)
    requires items != [] && IsData(w, ListOf(items), v)
    ensures v.Pointer? && IsFixed(w, v.cons.index) && w.fixed[v.cons.index + 1].Tag() == PAIR
  {
  }

  lemma {:induction false} ItemsAreFewer(p: Point, items: seq<Data>, c: Cons)
    requires Holds(p) && IsData(p.w, ListOf(items), Pointer(c))
    ensures |items| < |p.s.words|
  {
    hide IsData;
    var values := ListIsInHeap(p.w, p.s.words, items, c);
    Calls.ListIsShort(p.s.words, c, values, Cons(p.w.nil, 0), PAIR);
  }

  /** The arguments of a primitive, those of `apply` spread out, are on the stack. */
  lemma {:induction false} SpreadOn(p: Point, temps: seq<Data>, base: nat, a: Arity) returns (q: Point)
    requires Holds(p) && Temps(p, p.s.stack.index, temps, base) && base < |p.s.words|
    requires Spread(temps, a.variadic).Done?
    ensures Depth.Spread(p.s, a) == Run.Ok(q.s) && Holds(q) && Evolves(p, q) && q.st == p.st && q.s.code == p.s.code
    ensures Temps(q, q.s.stack.index, Spread(temps, a.variadic).value, base)
    ensures a.variadic ==> temps != []
  {
    hide IsData, HasPrimitive, Holds, Evolves, Temps, IsList, Items, SpreadList, PopOf, ListOf;
    if a.variadic {
      var n := |temps| - 1;
      PopTemp(p, temps, base);
      var (v, s1) := PopOf(p.s).value;
      ListIsPointer(p.w, temps[n], v);
      var p1 := p.(s := s1.(register := v.cons));
      OnlyRoots(p, p1.s);
      TempsEvolve(p, p1, s1.stack.index, temps[..n], base);
      WordsGrow(p, p1);
      ItemsAreFewer(p1, Items(temps[n]), v.cons);
      q := SpreadTemps(p1, temps[..n], Items(temps[n]), base, |s1.words|);
      EvolvesTrans(p, p1, q);
    } else {
      EvolvesRefl(p);
      q := p;
    }
  }

  /** A call of the primitive that makes ribs, directly or by `apply`. */
  lemma {:induction false} CallRib(p: Point, a: Arity, k: Code, temps: seq<Data>, base: nat, n: int)
    returns (q: Point)
    requires Calling(p, a, k, Data.Primitive(RIB), temps, base) && IsContinuation(k) && base < |p.s.words|
    requires Spread(temps, a.variadic).Done? && |Spread(temps, a.variadic).value| == 3
    requires Spread(temps, a.variadic).value[2] == Plain(Datum(Number(n)))
    ensures var all := Spread(temps, a.variadic).value;
            Pushes(p, q, k, Rib(all[0], all[1], n % 65536), base, false, |p.s.words|) && q.st == p.st
  {
    var p1 := SpreadOn(p, temps, base, a);
    var all := Spread(temps, a.variadic).value;
    CallsRib(p, p1, a, k, temps, all, base);
    hide IsData, HasPrimitive, Evolves, Holds, Temps, OperandCons, HasCode, ExecuteOf, IsSimple, PopOf, PushOf,
         Depth.Height, Spread, Depth.Spread;
    var tag := n % 65536;
    var x, y, v, s3 := PopThree(p1, all, base);
    NumberIsData(p1.w, n, v);
    OnlyRoots(p1, s3);
    var p3 := p1.(s := s3);
    RibMade(p3, all[0], x, all[1], y, tag);
    var p4 := Made(p3, x, y.SetTag(tag));
    Pushed(p4, Rib(all[0], all[1], tag), Pointer(Fresh(s3)));
    q := p4.(s := PushOf(p4.s, Pointer(Fresh(s3))).value);
    EvolvesTrans(p, p1, p3);
    EvolvesTrans(p, p3, p4);
    EvolvesTrans(p, p4, q);
    WordsGrow(p, p4);
    LowerTop(q, Rib(all[0], all[1], tag), base, |p4.s.words|, |p.s.words|);
  }

  lemma {:induction false} CallsRib(p: Point, p1: Point, a: Arity, k: Code, temps: seq<Data>, all: seq<Data>, base: nat)
    requires Calling(p, a, k, Data.Primitive(RIB), temps, base) && (a.variadic ==> temps != [])
    requires Depth.Spread(p.s, a) == Run.Ok(p1.s) && Holds(p1) && Temps(p1, p1.s.stack.index, all, base) && |all| == 3
    ensures ExecuteOf(p.s, InstructionAt(p)) == OperateOf(p1.s, RIB) && IsSimple(p.s, InstructionAt(p))
  {
    hide Depth.Spread, Depth.Height, Temps, OperandCons, IsSimple, ExecuteOf, OperateOf, HasCode, HasPrimitive;
    HoldsFixed(p);
    HoldsFixed(p1);
    TempsAreHigh(p, p.s.stack.index, temps, base);
    TempsAreHigh(p1, p1.s.stack.index, all, base);
    PrimitiveIsData(p.w, RIB, Car(p.s, OperandCons(p.s).value));
    CallsPrimitive(p, RIB, a);
  }

  lemma {:induction false} PrimitiveIsData(w: World, id: int, v: Value)
    requires IsData(w, Data.Primitive(id), v)
    ensures v.Pointer? && IsPrimitive(w, v.cons.index, id)
  {
  }

  lemma {:induction false} NumberIsData(w: World, n: int, v: Value)
    requires IsData(w, Plain(Datum(Number(n))), v)
    ensures v == Number(n)
  {
  }

  // ----- computed operators -----

  /** The cell of the operator of a call whose result is on top of it; its link may have been kept by a closure
      if it is exposed. */
  ghost predicate IsOperator(p: Point, y: nat, base: nat, low: nat, exposed: bool) {
    && y % 2 == 0 && low <= y && base < y && y + 1 < |p.s.words| && y !in p.w.fixed && y !in p.w.vars
    && p.s.words[y + 1] == Pointer(Cons(base, PAIR)) && (!exposed ==> y + 1 !in p.w.fixed)
  }

  lemma {:induction false} SetsOperator(p: Point, k: Code, d: Data, y: nat, low: nat)
    requires Holds(p) && HasCode(p.w, p.s.code.index, Set(Index(1), k)) && IsTop(p, d, y, false, low)
    requires IsCell(p.s, Cons(y, PAIR)) && Cdr(p.s, Cons(y, PAIR)).Tag() != FRAME
    ensures var s1 := p.s.(words := p.s.words[y := p.s.words[p.s.stack.index]], stack := Cons(y, PAIR));
            SetOf(p.s) == Run.Ok(s1) && ExecuteOf(p.s, InstructionAt(p)) == Run.Ok(s1)
    ensures IsSimple(p.s, InstructionAt(p))
  {
    hide IsData, HasPrimitive, IsSimple;
    Popped(p, d, y, false, low);
    assert CarOf(p.s, p.s.code) == Run.Ok(Number(1));
    assert TailOf(p.s, p.s.stack, 1) == TailOf(p.s, Cons(y, PAIR), 0);
    SetIsSimple(p, d, y, false, low, InstructionAt(p));
  }

  /** The result of a call replaces its operator, whose cell a closure among the arguments may have kept. */
  lemma {:induction false} UnsafeUnbind(o: Point, m: nat, p: Point, k: Code, d: Data, y: nat, base: nat,
                                        caller: Caller, exposed: bool, own: set<nat>)
    returns (steps: nat, r: Point)
    requires Runs(o, m, p, own) && Holds(p) && HasCode(p.w, p.s.code.index, Set(Index(1), k))
    requires IsContinuation(k) && !k.Return? && IsTop(p, d, y, false, |o.s.words|)
    requires IsOperator(p, y, base, |o.s.words|, exposed)
    ensures Runs(o, steps, r, own) && r.st == p.st && Arrived(r, k, base, caller, d, exposed, |o.s.words|)
  {
    hide IsData, Reaches, Arrived, Holds, Evolves, IsTop, IsOperator, HasCode;
    var q := OperatorReplaced(o, p, k, d, y, base, exposed, own);
    ReachesOn(o.s, m, p.s, 1, q.s, 0, 0);
    var n;
    n, r := Land(q, k, base, caller, d, exposed, |o.s.words|);
    RunsOn(o, m + 1, q, n, r, own);
    steps := m + 1 + n;
  }

  lemma {:induction false} SetAt(p: Point, k: Code)
    requires HasCode(p.w, p.s.code.index, Set(Index(1), k)) && IsContinuation(k) && !k.Return?
    ensures At(p, k) && p.s.code.index != p.w.nil && Continues(k)
  {
  }

  lemma {:induction false} OperatorReplaced(o: Point, p: Point, k: Code, d: Data, y: nat, base: nat, exposed: bool,
                                            own: set<nat>)
    returns (q: Point)
    requires Evolves(o, p, own) && Holds(p) && HasCode(p.w, p.s.code.index, Set(Index(1), k))
    requires IsContinuation(k) && !k.Return? && IsTop(p, d, y, false, |o.s.words|)
    requires IsOperator(p, y, base, |o.s.words|, exposed)
    ensures Reaches(p.s, 1, q.s) && Evolves(o, q, own) && q.st == p.st && Holds(q)
    ensures IsTop(q, d, base, exposed, |o.s.words|) && HasCode(q.w, q.s.code.index, k)
  {
    hide IsData, HasPrimitive, Reaches, AdvanceOf, SetOf, ExecuteOf, Holds, IsSimple, HasCode;
    SetAt(p, k);
    SetsOperator(p, k, d, y, |o.s.words|);
    var v := p.s.words[p.s.stack.index];
    var s1 := p.s.(words := p.s.words[y := v], stack := Cons(y, PAIR));
    var q1 := p.(s := s1);
    OperatorOverwritten(p, y, v);
    OnlyRoots(p.(s := p.s.(words := s1.words)), s1);
    HoldsFixed(q1);
    AdvanceTo(q1, k);
    SimpleStep(p, k, s1);
    q := q1.(s := AdvanceOf(s1).value);
    OnlyRoots(q1, q.s);
  }

  lemma {:induction false} OperatorOverwritten(p: Point, y: nat, v: Value)
    requires Holds(p) && y % 2 == 0 && y < |p.s.words| && y !in p.w.fixed && y !in p.w.vars
    ensures Holds(p.(s := p.s.(words := p.s.words[y := v])))
  {
    hide IsData, HasPrimitive;
    var q := p.(s := p.s.(words := p.s.words[y := v]));
    forall l | 0 <= l < |q.st| ensures HoldsVar(q.w, q.s.words, q.st, l) {
      assert HoldsVar(p.w, p.s.words, p.st, l);
    }
  }
}
