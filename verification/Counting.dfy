/** The counting pass of `compile.scm` and why the encoder that follows it ends with nothing left over. */
module Counting {
  import opened RibGraphs
  import opened RibTokens
  import opened Encoding
  import opened Distinctness

  // ----- one traversal for both passes -----

  /** How often each shared rib is met, and which of them have been met. */
  datatype Visit = Visit(hits: multiset<nat>, seen: set<nat>)

  /** Walks through a value, nops stripped, and through the fields of a shared rib the first time only. */
  function Walk(g: Graph, r: Ref, shared: set<nat>, seen: set<nat>): (v: Visit)
    requires Acyclic(g) && NopsLeadToRibs(g) && Below(r, |g|)
    ensures seen <= v.seen <= seen + shared
    decreases if r.Rib? then r.id + 1 else 0
  {
    match r
    case Int(_) => Visit(multiset{}, seen)
    case Rib(_) =>
      var id := Strip(g, r).id;
      if id in shared && id in seen then Visit(multiset{id}, seen)
      else
        var car := Walk(g, g[id].car, shared, seen);
        var cdr := Walk(g, g[id].cdr, shared, car.seen);
        if id in shared then Visit(multiset{id} + car.hits + cdr.hits, cdr.seen + {id})
        else Visit(car.hits + cdr.hits, cdr.seen)
  }

  /** A rib does not meet itself or later ribs. */
  lemma {:induction false} WalkStaysBelow(g: Graph, r: Ref, shared: set<nat>, seen: set<nat>, i: nat)
    requires Acyclic(g) && NopsLeadToRibs(g) && Below(r, |g|) && Below(r, i)
    ensures var v := Walk(g, r, shared, seen); v.hits[i] == 0 && (i in v.seen ==> i in seen)
    decreases if r.Rib? then r.id + 1 else 0
  {
    if r.Rib? {
      var id := Strip(g, r).id;
      if !(id in shared && id in seen) {
        WalkStaysBelow(g, g[id].car, shared, seen, i);
        WalkStaysBelow(g, g[id].cdr, shared, Walk(g, g[id].car, shared, seen).seen, i);
      }
    }
  }

  // ----- encoding with exact counts -----

  /** The state of the encoder in the middle of a traversal: `counts` says how often each counted rib is
      still to be met, `due` being the hits to come, and the dictionary holds the counted ribs that have been
      met and will be met again. */
  ghost predicate OnCount(c: Context, shared: set<nat>, seen: set<nat>, due: multiset<nat>) {
    && c.counts.Keys <= shared
    && (forall id :: id in c.counts ==> c.counts[id] == due[id])
    && (forall id :: id in c.counts ==> (id in c.dictionary <==> id in seen && c.counts[id] > 0))
    && (forall id :: id in c.counts && id !in seen ==> c.counts[id] > 1)
    && (forall id :: id in c.dictionary ==> id in c.counts)
    && (forall id :: id in shared && id !in c.counts ==> due[id] <= if id in seen then 0 else 1)
  }

  lemma {:induction false} UseMembers(xs: seq<nat>, index: nat, keep: bool, id: nat)
    requires index < |xs| && xs[index] !in xs[..index] && xs[index] !in xs[index + 1..]
    ensures id in Use(xs, index, keep) <==> id in xs && (keep || id != xs[index])
  {
    assert xs == xs[..index] + [xs[index]] + xs[index + 1..];
  }

  lemma {:induction false} EncodeReferenceOnCount(g: Graph, r: Ref, c: Context, shared: set<nat>, seen: set<nat>,
                                                  later: multiset<nat>)
    requires Acyclic(g) && NopsLeadToRibs(g) && Below(r, |g|) && r.Rib? && Distinct(c.dictionary)
    requires var id := Strip(g, r).id;
             && id in c.counts && id in c.dictionary
             && OnCount(c, shared, seen, multiset{id} + later)
    ensures var e := Encode(g, r, c); OnCount(e.context, shared, seen, later) && Distinct(e.context.dictionary)
  {
    var id := Strip(g, r).id;
    var index := IndexOf(c.dictionary, id);
    var e := Encode(g, r, c).context;
    var keep := e.counts[id] != 0;
    forall i ensures i in e.dictionary <==> i in c.dictionary && (keep || i != id) {
      UseMembers(c.dictionary, index, keep, i);
    }
    UseKeepsDistinct(c.dictionary, index, keep);
  }

  lemma {:induction false} UseKeepsDistinct(xs: seq<nat>, index: nat, keep: bool)
    requires index < |xs| && Distinct(xs)
    ensures Distinct(Use(xs, index, keep))
  {
    var ys := Use(xs, index, keep);
    UseLength(xs, index, keep);
    forall i, j | 0 <= i < j < |ys| ensures ys[i] != ys[j] {
      UseAt(xs, index, keep, i);
      UseAt(xs, index, keep, j);
    }
  }

  /** A rib that the dictionary does not have is met for the first time. */
  lemma {:induction false} FirstVisit(c: Context, shared: set<nat>, seen: set<nat>, due: multiset<nat>, id: nat)
    requires OnCount(c, shared, seen, due) && due[id] > 0 && !(id in c.counts && id in c.dictionary)
    ensures !(id in shared && id in seen)
  {
  }

  lemma {:induction false} RememberOnCount(c: Context, shared: set<nat>, seen: set<nat>, later: multiset<nat>, id: nat)
    requires OnCount(c, shared, seen, multiset{id} + later) && id in c.counts && id !in seen
    requires Distinct(c.dictionary)
    ensures OnCount(Context([id] + c.dictionary, Decrement(c.counts, id)), shared, seen + {id}, later)
    ensures Distinct([id] + c.dictionary)
  {
    assert id !in c.dictionary;
  }

  lemma {:induction false} PassOnCount(c: Context, shared: set<nat>, seen: set<nat>, later: multiset<nat>, id: nat)
    requires OnCount(c, shared, seen, multiset{id} + later) && id in shared && id !in c.counts && id !in seen
    ensures OnCount(c, shared, seen + {id}, later)
  {
  }

  lemma {:induction false} WalkFirst(g: Graph, r: Ref, shared: set<nat>, seen: set<nat>)
    requires Acyclic(g) && NopsLeadToRibs(g) && Below(r, |g|) && r.Rib?
    requires var id := Strip(g, r).id; !(id in shared && id in seen)
    ensures var id := Strip(g, r).id;
            var car := Walk(g, g[id].car, shared, seen);
            var cdr := Walk(g, g[id].cdr, shared, car.seen);
            && Walk(g, r, shared, seen)
               == (if id in shared then Visit(multiset{id} + car.hits + cdr.hits, cdr.seen + {id})
                   else Visit(car.hits + cdr.hits, cdr.seen))
            && (id in cdr.seen ==> id in seen)
  {
    var id := Strip(g, r).id;
    WalkStaysBelow(g, g[id].car, shared, seen, id);
    WalkStaysBelow(g, g[id].cdr, shared, Walk(g, g[id].car, shared, seen).seen, id);
  }

  /** Encoding meets every counted rib exactly as often as the walk does. */
  lemma {:induction false} EncodeKeepsCount(g: Graph, r: Ref, c: Context, shared: set<nat>, seen: set<nat>,
                                            later: multiset<nat>)
    requires Acyclic(g) && NopsLeadToRibs(g) && Below(r, |g|) && Distinct(c.dictionary)
    requires OnCount(c, shared, seen, Walk(g, r, shared, seen).hits + later)
    ensures var e := Encode(g, r, c);
            OnCount(e.context, shared, Walk(g, r, shared, seen).seen, later) && Distinct(e.context.dictionary)
    decreases if r.Rib? then r.id + 1 else 0
  {
    if r.Rib? {
      var id := Strip(g, r).id;
      if id in c.counts && id in c.dictionary {
        assert id in shared && id in seen;
        EncodeReferenceOnCount(g, r, c, shared, seen, later);
      } else {
        if id in shared {
          assert Walk(g, r, shared, seen).hits[id] > 0;
          FirstVisit(c, shared, seen, Walk(g, r, shared, seen).hits + later, id);
        }
        EncodeFieldsKeepsCount(g, r, c, shared, seen, later);
      }
    }
  }

  lemma {:induction false} EncodeFieldsKeepsCount(g: Graph, r: Ref, c: Context, shared: set<nat>, seen: set<nat>,
                                                  later: multiset<nat>)
    requires Acyclic(g) && NopsLeadToRibs(g) && Below(r, |g|) && Distinct(c.dictionary) && r.Rib?
    requires OnCount(c, shared, seen, Walk(g, r, shared, seen).hits + later)
    requires var id := Strip(g, r).id; !(id in c.counts && id in c.dictionary) && !(id in shared && id in seen)
    ensures var e := Encode(g, r, c);
            OnCount(e.context, shared, Walk(g, r, shared, seen).seen, later) && Distinct(e.context.dictionary)
    decreases r.id + 1, 0
  {
    hide OnCount, Walk, Encode, Distinct;
    var id := Strip(g, r).id;
    WalkFirst(g, r, shared, seen);
    EncodeFields(g, r, c);
    var car := Walk(g, g[id].car, shared, seen);
    var cdr := Walk(g, g[id].cdr, shared, car.seen);
    var rest := if id in shared then multiset{id} + later else later;
    assert Walk(g, r, shared, seen).hits + later == car.hits + (cdr.hits + rest);
    EncodeKeepsCount(g, g[id].car, c, shared, seen, cdr.hits + rest);
    var c1 := Encode(g, g[id].car, c).context;
    EncodeKeepsCount(g, g[id].cdr, c1, shared, car.seen, rest);
    var c2 := Encode(g, g[id].cdr, c1).context;
    CountedAreShared(c, shared, seen, Walk(g, r, shared, seen).hits + later);
    if id in c.counts {
      RememberOnCount(c2, shared, cdr.seen, later, id);
    } else if id in shared {
      PassOnCount(c2, shared, cdr.seen, later, id);
    }
  }

  lemma {:induction false} CountedAreShared(c: Context, shared: set<nat>, seen: set<nat>, due: multiset<nat>)
    requires OnCount(c, shared, seen, due)
    ensures c.counts.Keys <= shared
  {
  }

  // ----- the counting pass -----

  const NULL_TAG: nat := 1
  const BOOLEAN_TAG: nat := 2
  const PROCEDURE_TAG: nat := 3
  const SYMBOL_TAG: nat := 4
  const STRING_TAG: nat := 5
  const CHARACTER_TAG: nat := 6
  const IF_TAG: nat := 3

  predicate IsSharedTag(tag: nat) {
    tag in {NOP_TAG, BOOLEAN_TAG, CHARACTER_TAG, NULL_TAG, STRING_TAG, SYMBOL_TAG}
  }

  function Get(counts: map<nat, int>, id: nat): int {
    if id in counts then counts[id] else 0
  }

  function Increment(counts: map<nat, int>, id: nat): map<nat, int> {
    counts[id := Get(counts, id) + 1]
  }

  function CountData(g: Graph, r: Ref, nil: nat, counts: map<nat, int>): map<nat, int>
    requires Acyclic(g) && NopsLeadToRibs(g) && Below(r, |g|)
    decreases (if r.Rib? then r.id + 1 else 0), 0
  {
    match r
    case Int(_) => counts
    case Rib(id) =>
      var node := g[id];
      var shared := IsSharedTag(node.tag);
      var fields :=
        if shared && id in counts then counts
        else
          var car := if node.tag == PROCEDURE_TAG then CountCode(g, node.car, nil, counts)
                     else CountData(g, node.car, nil, counts);
          CountData(g, node.cdr, nil, car);
      if shared then Increment(fields, id) else fields
  }

  function CountCode(g: Graph, r: Ref, nil: nat, counts: map<nat, int>): map<nat, int>
    requires Acyclic(g) && NopsLeadToRibs(g) && Below(r, |g|)
    decreases (if r.Rib? then r.id + 1 else 0), 1
  {
    match r
    case Int(_) => counts
    case Rib(id) =>
      if id == nil then CountData(g, r, nil, counts)
      else if IsNop(g, r) then
        var target := Strip(g, r);
        if target.id in counts then Increment(counts, target.id)
        else CountCode(g, target, nil, Increment(counts, target.id))
      else
        var node := g[id];
        var car := if node.tag == IF_TAG then CountCode(g, node.car, nil, counts)
                   else CountData(g, node.car, nil, counts);
        CountCode(g, node.cdr, nil, car)
  }

  /** Only ribs met more than once keep a count. */
  function CountsAbove(counts: map<nat, int>, n: int): map<nat, int> {
    map id | id in counts && counts[id] > n :: counts[id]
  }

  // ----- well-typed graphs -----

  /** Which ribs are instructions, and which of these nops lead to. */
  datatype Kinds = Kinds(code: set<nat>, targets: set<nat>, nil: nat)

  predicate IsData(g: Graph, k: Kinds, r: Ref)
    requires Below(r, |g|)
  {
    r.Rib? ==> r.id !in k.code && !IsNop(g, r)
  }

  /** Code is reached directly, or through nops, but not both ways. */
  predicate IsCode(g: Graph, k: Kinds, r: Ref)
    requires Below(r, |g|)
  {
    r.Rib? ==> r.id == k.nil || IsNop(g, r) || (r.id in k.code && r.id !in k.targets)
  }

  predicate IsTypedNode(g: Graph, k: Kinds, i: nat)
    requires Acyclic(g) && i < |g|
  {
    var node := g[i];
    if IsNop(g, Rib(i)) then Strip(g, Rib(i)).Rib? && Strip(g, Rib(i)).id in k.targets + {k.nil}
    else if i in k.code then
      (if node.tag == IF_TAG then IsCode(g, k, node.car) else IsData(g, k, node.car)) && IsCode(g, k, node.cdr)
    else
      (if node.tag == PROCEDURE_TAG then IsCode(g, k, node.car) else IsData(g, k, node.car)) && IsData(g, k, node.cdr)
  }

  /** The shape of marshalled programs: instructions refer to data by their operands and to code by their
      successors, data to data, and nops stand only in front of instructions. */
  ghost predicate Typed(g: Graph, k: Kinds) {
    && Acyclic(g) && NopsLeadToRibs(g) && k.nil < |g| && k.nil !in k.code && g[k.nil].tag == NULL_TAG
    && (forall i :: i in k.targets ==> i in k.code && i < |g| && !IsNop(g, Rib(i)))
    && forall i :: 0 <= i < |g| ==> IsTypedNode(g, k, i)
  }

  function Shared(g: Graph, k: Kinds): set<nat> {
    k.targets + set i | 0 <= i < |g| && i !in k.code && IsSharedTag(g[i].tag)
  }

  // ----- counting is walking -----

  /** The counts after a walk. */
  ghost predicate Counted(before: map<nat, int>, v: Visit, after: map<nat, int>) {
    && after.Keys == v.seen
    && forall id :: Get(after, id) == Get(before, id) + v.hits[id]
  }

  /** A rib that is met already makes no difference to a walk that cannot meet it. */
  lemma {:induction false} WalkIgnores(g: Graph, r: Ref, shared: set<nat>, seen: set<nat>, i: nat)
    requires Acyclic(g) && NopsLeadToRibs(g) && Below(r, |g|) && Below(r, i)
    ensures var v := Walk(g, r, shared, seen); Walk(g, r, shared, seen + {i}) == Visit(v.hits, v.seen + {i})
    decreases if r.Rib? then r.id + 1 else 0
  {
    if r.Rib? {
      var id := Strip(g, r).id;
      if !(id in shared && id in seen) {
        WalkFieldsIgnores(g, r, shared, seen, i);
      }
    }
  }

  lemma {:induction false} WalkFieldsIgnores(g: Graph, r: Ref, shared: set<nat>, seen: set<nat>, i: nat)
    requires Acyclic(g) && NopsLeadToRibs(g) && Below(r, |g|) && Below(r, i) && r.Rib?
    requires var id := Strip(g, r).id; !(id in shared && id in seen)
    ensures var v := Walk(g, r, shared, seen); Walk(g, r, shared, seen + {i}) == Visit(v.hits, v.seen + {i})
    decreases r.id + 1, 0
  {
    hide Walk;
    var id := Strip(g, r).id;
    WalkFirst(g, r, shared, seen);
    WalkFirst(g, r, shared, seen + {i});
    var car := Walk(g, g[id].car, shared, seen);
    WalkIgnores(g, g[id].car, shared, seen, i);
    WalkIgnores(g, g[id].cdr, shared, car.seen, i);
    var cdr := Walk(g, g[id].cdr, shared, car.seen);
    assert cdr.seen + {i} + {id} == cdr.seen + {id} + {i};
  }

  lemma {:induction false} CountedJoin(a: map<nat, int>, u: Visit, b: map<nat, int>, v: Visit, c: map<nat, int>)
    requires Counted(a, u, b) && Counted(b, v, c)
    ensures Counted(a, Visit(u.hits + v.hits, v.seen), c)
  {
  }

  lemma {:induction false} CountedIncrement(a: map<nat, int>, v: Visit, b: map<nat, int>, id: nat)
    requires Counted(a, v, b)
    ensures Counted(a, Visit(multiset{id} + v.hits, v.seen + {id}), Increment(b, id))
  {
  }

  lemma {:induction false} CountDataIsWalk(g: Graph, k: Kinds, r: Ref, counts: map<nat, int>)
    requires Typed(g, k) && Below(r, |g|) && IsData(g, k, r) && k.nil in counts
    ensures Counted(counts, Walk(g, r, Shared(g, k), counts.Keys), CountData(g, r, k.nil, counts))
    decreases (if r.Rib? then r.id + 1 else 0), 0
  {
    if r.Rib? {
      var node, shared := g[r.id], Shared(g, k);
      assert IsTypedNode(g, k, r.id);
      assert r.id in shared <==> IsSharedTag(node.tag);
      if !(r.id in shared && r.id in counts) {
        var car;
        if node.tag == PROCEDURE_TAG {
          CountCodeIsWalk(g, k, node.car, counts);
          car := CountCode(g, node.car, k.nil, counts);
        } else {
          CountDataIsWalk(g, k, node.car, counts);
          car := CountData(g, node.car, k.nil, counts);
        }
        CountDataIsWalk(g, k, node.cdr, car);
        var u, v := Walk(g, node.car, shared, counts.Keys), Walk(g, node.cdr, shared, car.Keys);
        var cdr := CountData(g, node.cdr, k.nil, car);
        CountedJoin(counts, u, car, v, cdr);
        if r.id in shared {
          CountedIncrement(counts, Visit(u.hits + v.hits, v.seen), cdr, r.id);
          assert multiset{r.id} + (u.hits + v.hits) == multiset{r.id} + u.hits + v.hits;
        }
      }
    }
  }

  lemma {:induction false} CountCodeIsWalk(g: Graph, k: Kinds, r: Ref, counts: map<nat, int>)
    requires Typed(g, k) && Below(r, |g|) && IsCode(g, k, r) && k.nil in counts
    ensures Counted(counts, Walk(g, r, Shared(g, k), counts.Keys), CountCode(g, r, k.nil, counts))
    decreases (if r.Rib? then r.id + 1 else 0), 1
  {
    if r.Rib? {
      if r.id == k.nil {
        CountDataIsWalk(g, k, r, counts);
      } else if IsNop(g, r) {
        CountNopIsWalk(g, k, r, counts);
      } else {
        CountFieldsIsWalk(g, k, r.id, counts);
        assert r.id !in Shared(g, k);
        assert Strip(g, r) == r;
      }
    }
  }

  // The hits and the ribs met in the fields of a rib.
  function WalkFields(g: Graph, id: nat, shared: set<nat>, seen: set<nat>): Visit
    requires Acyclic(g) && NopsLeadToRibs(g) && id < |g|
  {
    var car := Walk(g, g[id].car, shared, seen);
    var cdr := Walk(g, g[id].cdr, shared, car.seen);
    Visit(car.hits + cdr.hits, cdr.seen)
  }

  lemma {:induction false} CountFieldsIsWalk(g: Graph, k: Kinds, id: nat, counts: map<nat, int>)
    requires Typed(g, k) && id < |g| && id in k.code && !IsNop(g, Rib(id)) && k.nil in counts
    ensures Counted(counts, WalkFields(g, id, Shared(g, k), counts.Keys), CountCode(g, Rib(id), k.nil, counts))
    decreases id + 1, 0
  {
    var node, shared := g[id], Shared(g, k);
    assert IsTypedNode(g, k, id);
    var car;
    if node.tag == IF_TAG {
      CountCodeIsWalk(g, k, node.car, counts);
      car := CountCode(g, node.car, k.nil, counts);
    } else {
      CountDataIsWalk(g, k, node.car, counts);
      car := CountData(g, node.car, k.nil, counts);
    }
    CountCodeIsWalk(g, k, node.cdr, car);
    CountedJoin(counts, Walk(g, node.car, shared, counts.Keys), car, Walk(g, node.cdr, shared, car.Keys),
                CountCode(g, node.cdr, k.nil, car));
  }

  lemma {:induction false} CountNopIsWalk(g: Graph, k: Kinds, r: Ref, counts: map<nat, int>)
    requires Typed(g, k) && Below(r, |g|) && r.Rib? && IsNop(g, r) && r.id != k.nil && k.nil in counts
    ensures Counted(counts, Walk(g, r, Shared(g, k), counts.Keys), CountCode(g, r, k.nil, counts))
    decreases r.id + 1, 0
  {
    var target, shared := Strip(g, r).id, Shared(g, k);
    assert IsTypedNode(g, k, r.id) && target in shared;
    if target !in counts {
      var counts1 := Increment(counts, target);
      CountFieldsIsWalk(g, k, target, counts1);
      WalkIgnores(g, g[target].car, shared, counts.Keys, target);
      var car := Walk(g, g[target].car, shared, counts.Keys);
      WalkIgnores(g, g[target].cdr, shared, car.seen, target);
      assert counts1.Keys == counts.Keys + {target};
    }
  }

  // ----- nothing is left over -----

  /** A program is the pair of the false value and the code. The encoder finds the null value, which ends
      code, in the `car` field of the false value. */
  predicate HasNull(g: Graph, root: Ref)
    requires Acyclic(g) && Below(root, |g|)
  {
    root.Rib? && g[root.id].car.Rib? && g[g[root.id].car.id].car.Rib?
  }

  function NullOf(g: Graph, root: Ref): nat
    requires Acyclic(g) && Below(root, |g|) && HasNull(g, root)
  {
    g[g[root.id].car.id].car.id
  }

  /** What the encoder starts from. */
  function StartContext(g: Graph, root: Ref): Context
    requires Acyclic(g) && NopsLeadToRibs(g) && Below(root, |g|) && HasNull(g, root)
  {
    Context([], CountsAbove(CountCode(g, root, NullOf(g, root), map[]), 1))
  }

  ghost predicate IsProgram(g: Graph, k: Kinds, root: Ref) {
    && Typed(g, k) && Below(root, |g|) && HasNull(g, root) && k.nil == NullOf(g, root)
    && root.id in k.code && root.id !in k.targets && !IsNop(g, root) && g[root.id].tag != IF_TAG
    && g[g[root.id].car.id].tag == BOOLEAN_TAG
    // The null value holds a zero and a pair of zeros.
    && g[k.nil].car.Int? && g[k.nil].cdr.Rib?
    && var pair := g[g[k.nil].cdr.id]; pair.tag == 0 && pair.car.Int? && pair.cdr.Int?
  }

  /** The null value is the first to be counted. */
  lemma {:induction false} CountNull(g: Graph, k: Kinds, root: Ref)
    requires IsProgram(g, k, root)
    ensures CountData(g, Rib(k.nil), k.nil, map[]) == map[k.nil := 1]
    ensures Walk(g, Rib(k.nil), Shared(g, k), {}) == Visit(multiset{k.nil}, {k.nil})
  {
    var p := g[k.nil].cdr;
    assert IsTypedNode(g, k, k.nil);
    assert k.nil in Shared(g, k) && p.id !in Shared(g, k);
    assert Strip(g, p) == p && Strip(g, Rib(k.nil)) == Rib(k.nil);
    assert CountData(g, p, k.nil, map[]) == map[];
    assert Walk(g, p, Shared(g, k), {}) == Visit(multiset{}, {});
  }

  lemma {:induction false} CountFalseIsWalk(g: Graph, k: Kinds, root: Ref)
    requires IsProgram(g, k, root)
    ensures var f := g[root.id].car;
            var counts := CountData(g, f, k.nil, map[]);
            Counted(map[], Walk(g, f, Shared(g, k), {}), counts) && k.nil in counts
  {
    var f, shared := g[root.id].car, Shared(g, k);
    assert IsTypedNode(g, k, root.id) && IsTypedNode(g, k, f.id);
    assert f.id in shared && Strip(g, f) == f;
    CountNull(g, k, root);
    var u := Visit(multiset{k.nil}, {k.nil});
    var counts := map[k.nil := 1];
    assert Counted(map[], u, counts);
    CountDataIsWalk(g, k, g[f.id].cdr, counts);
    var v := Walk(g, g[f.id].cdr, shared, counts.Keys);
    var all := CountData(g, g[f.id].cdr, k.nil, counts);
    CountedJoin(map[], u, counts, v, all);
    CountedIncrement(map[], Visit(u.hits + v.hits, v.seen), all, f.id);
    assert multiset{f.id} + (u.hits + v.hits) == multiset{f.id} + u.hits + v.hits;
  }

  lemma {:induction false} CountProgramIsWalk(g: Graph, k: Kinds, root: Ref)
    requires IsProgram(g, k, root)
    ensures Counted(map[], Walk(g, root, Shared(g, k), {}), CountCode(g, root, k.nil, map[]))
  {
    var f, shared := g[root.id].car, Shared(g, k);
    assert IsTypedNode(g, k, root.id);
    assert root.id !in shared && Strip(g, root) == root;
    CountFalseIsWalk(g, k, root);
    var counts := CountData(g, f, k.nil, map[]);
    CountCodeIsWalk(g, k, g[root.id].cdr, counts);
    var u := Walk(g, f, shared, {});
    CountedJoin(map[], u, counts, Walk(g, g[root.id].cdr, shared, u.seen),
                CountCode(g, g[root.id].cdr, k.nil, counts));
  }

  lemma {:induction false} StartOnCount(g: Graph, k: Kinds, root: Ref)
    requires IsProgram(g, k, root)
    ensures OnCount(StartContext(g, root), Shared(g, k), {}, Walk(g, root, Shared(g, k), {}).hits)
  {
    hide Walk, CountCode, Shared, IsTypedNode;
    CountProgramIsWalk(g, k, root);
    var none: map<nat, int> := map[];
    var counts, v := CountCode(g, root, k.nil, none), Walk(g, root, Shared(g, k), {});
    forall id ensures Get(counts, id) == v.hits[id] {
      assert Get(none, id) == 0;
    }
  }

  lemma {:induction false} NoMembers(xs: seq<nat>)
    ensures (forall x :: x !in xs) ==> xs == []
  {
    if xs != [] {
      assert xs[0] in xs;
    }
  }

  /** On well-typed programs the two passes agree: encoding ends with an empty dictionary and with every
      count used up, so neither of the two closing checks of the encoder can fail. */
  lemma {:induction false} EncodingUsesUpCounts(g: Graph, k: Kinds, root: Ref)
    requires IsProgram(g, k, root)
    ensures var e := Encode(g, root, StartContext(g, root));
            && e.context.dictionary == []
            && forall id :: id in e.context.counts ==> e.context.counts[id] == 0
  {
    var shared, c := Shared(g, k), StartContext(g, root);
    StartOnCount(g, k, root);
    var v := Walk(g, root, shared, {});
    assert v.hits + multiset{} == v.hits;
    EncodeKeepsCount(g, root, c, shared, {}, multiset{});
    NoMembers(Encode(g, root, c).context.dictionary);
  }

  // ----- why code must be reached in one way -----

  /** The encoder relies on marshalling, which never makes such a graph: an instruction that two nops and a plain
      successor lead to is counted twice but met three times, and encoding ends with it in the dictionary and with a
      count below zero. The graph is a pair of zeros, null, true, false, the instruction, its nop, two conditionals
      and the program. */
  function MixedGraph(): Graph {
    [Node(Int(0), Int(0), 0), Node(Int(0), Rib(0), NULL_TAG), Node(Int(0), Rib(1), BOOLEAN_TAG),
     Node(Rib(1), Rib(2), BOOLEAN_TAG), Node(Int(7), Rib(1), 0), Node(Int(0), Rib(4), NOP_TAG),
     Node(Rib(5), Rib(5), IF_TAG), Node(Rib(6), Rib(4), IF_TAG), Node(Rib(3), Rib(7), 0)]
  }

  lemma {:induction false} MixedIsFine()
    ensures var g := MixedGraph(); Acyclic(g) && NopsLeadToRibs(g) && HasNull(g, Rib(8)) && Strip(g, Rib(5)) == Rib(4)
  {
  }

  lemma {:induction false} MixedCountsData()
    ensures var g := MixedGraph();
            && Acyclic(g) && NopsLeadToRibs(g)
            && CountData(g, Rib(3), 1, map[]) == map[1 := 2, 2 := 1, 3 := 1]
  {
    MixedIsFine();
    var g := MixedGraph();
    assert CountData(g, Rib(1), 1, map[]) == map[1 := 1];
    assert CountData(g, Rib(2), 1, map[1 := 1]) == map[1 := 2, 2 := 1];
  }

  lemma {:induction false} MixedCountsCode()
    ensures var g := MixedGraph();
            && Acyclic(g) && NopsLeadToRibs(g)
            && CountCode(g, Rib(7), 1, map[1 := 2, 2 := 1, 3 := 1]) == map[1 := 4, 2 := 1, 3 := 1, 4 := 2]
  {
    MixedIsFine();
    var g := MixedGraph();
    var c1, c2 := map[1 := 2, 2 := 1, 3 := 1], map[1 := 3, 2 := 1, 3 := 1, 4 := 1];
    assert CountCode(g, Rib(4), 1, map[1 := 2, 2 := 1, 3 := 1, 4 := 1]) == c2;
    assert CountCode(g, Rib(6), 1, c1) == c2[4 := 2] by {
      assert CountCode(g, Rib(5), 1, c1) == c2;
      assert CountCode(g, Rib(5), 1, c2) == c2[4 := 2];
    }
    assert CountCode(g, Rib(4), 1, c2[4 := 2]) == map[1 := 4, 2 := 1, 3 := 1, 4 := 2];
  }

  lemma {:induction false} MixedStart()
    ensures var g := MixedGraph();
            && Acyclic(g) && NopsLeadToRibs(g) && HasNull(g, Rib(8))
            && StartContext(g, Rib(8)) == Context([], map[1 := 4, 4 := 2])
  {
    hide CountData;
    MixedIsFine();
    MixedCountsData();
    MixedCountsCode();
    assert CountCode(MixedGraph(), Rib(8), 1, map[]) == map[1 := 4, 2 := 1, 3 := 1, 4 := 2];
  }

  lemma {:induction false} MixedEncodesData()
    ensures var g := MixedGraph();
            && Acyclic(g) && NopsLeadToRibs(g)
            && Encode(g, Rib(3), Context([], map[1 := 4, 4 := 2])).context == Context([1], map[1 := 2, 4 := 2])
  {
    MixedIsFine();
    var g := MixedGraph();
    assert Encode(g, Rib(1), Context([], map[1 := 4, 4 := 2])).context == Context([1], map[1 := 3, 4 := 2]);
    assert Encode(g, Rib(2), Context([1], map[1 := 3, 4 := 2])).context == Context([1], map[1 := 2, 4 := 2]);
  }

  lemma {:induction false} MixedEncodesNop()
    ensures var g := MixedGraph();
            && Acyclic(g) && NopsLeadToRibs(g)
            && Encode(g, Rib(5), Context([1], map[1 := 2, 4 := 2])).context == Context([4, 1], map[1 := 1, 4 := 1])
  {
    MixedIsFine();
    var g := MixedGraph();
    assert Encode(g, Rib(1), Context([1], map[1 := 2, 4 := 2])).context == Context([1], map[1 := 1, 4 := 2]);
  }

  lemma {:induction false} MixedEncodesCode()
    ensures var g := MixedGraph();
            && Acyclic(g) && NopsLeadToRibs(g)
            && Encode(g, Rib(6), Context([1], map[1 := 2, 4 := 2])).context == Context([1], map[1 := 1, 4 := 0])
  {
    MixedIsFine();
    MixedEncodesNop();
    var g, c := MixedGraph(), Context([4, 1], map[1 := 1, 4 := 1]);
    EncodeEntry(g, Rib(5), c);
    assert Use([4, 1], 0, false) == [1];
    assert Encode(g, Rib(5), c).context == Context([1], map[1 := 1, 4 := 0]);
    EncodeFields(g, Rib(6), Context([1], map[1 := 2, 4 := 2]));
    hide Encode;
  }

  lemma {:induction false} MixedEncodesAgain()
    ensures var g := MixedGraph();
            && Acyclic(g) && NopsLeadToRibs(g)
            && Encode(g, Rib(4), Context([1], map[1 := 1, 4 := 0])).context == Context([4], map[1 := 0, 4 := -1])
  {
    MixedIsFine();
    var g := MixedGraph();
    assert Encode(g, Rib(1), Context([1], map[1 := 1, 4 := 0])).context == Context([], map[1 := 0, 4 := 0]);
  }

  lemma {:induction false} MixedCodeIsLeftOver()
    ensures var g := MixedGraph();
            && Acyclic(g) && NopsLeadToRibs(g) && HasNull(g, Rib(8))
            && var e := Encode(g, Rib(8), StartContext(g, Rib(8))).context;
               e.dictionary == [4] && 4 in e.counts && e.counts[4] == -1
  {
    hide StartContext, Encode;
    MixedIsFine();
    MixedStart();
    MixedEncodesData();
    MixedEncodesCode();
    MixedEncodesAgain();
    var g := MixedGraph();
    EncodeFields(g, Rib(7), Context([1], map[1 := 2, 4 := 2]));
    EncodeFields(g, Rib(8), Context([], map[1 := 4, 4 := 2]));
  }
}
