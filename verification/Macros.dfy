/** Matching and filling of `syntax-rules` in `compile.scm`. */
module Macros {
  import opened Options
  import opened Distinctness

  type Name = string

  datatype Syntax = Pair(car: Syntax, cdr: Syntax) | Symbol(name: Name) | Number(n: int) | Null

  /** Compiled patterns, which templates are, too. */
  datatype Pattern =
    | Variable(name: Name)
    | Branch(car: Pattern, cdr: Pattern)
    | Ellipsis(element: Pattern, variables: seq<Name>)
    | Literal(denotation: Syntax)
    | Constant(value: Syntax)

  /** A variable under an ellipsis is bound to a list of its bindings. */
  datatype Bound = One(value: Syntax) | Many(bindings: Matches)

  type Matches = seq<(Name, Bound)>

  // ----- patterns -----

  /** What the compilation of patterns finds in a pattern, from left to right. */
  function Variables(p: Pattern): seq<Name> {
    match p
    case Variable(x) => [x]
    case Branch(a, b) => Variables(a) + Variables(b)
    case Ellipsis(element, _) => Variables(element)
    case Literal(_) => []
    case Constant(_) => []
  }

  // What a name means where it is used.
  function Denotation(locals: map<Name, Syntax>, e: Syntax): Syntax {
    if e.Symbol? && e.name in locals then locals[e.name] else e
  }

  predicate IsLiteral(scope: map<Name, Syntax>, literals: set<Name>, e: Syntax) {
    var d := Denotation(scope, e);
    e.Symbol? && d.Symbol? && d.name in literals
  }

  /** Compiles a pattern where it is defined; literals take precedence over the ellipsis, and an ellipsis at the
      head of a list escapes what follows. */
  function Compile(scope: map<Name, Syntax>, ellipsis: Name, literals: set<Name>, p: Syntax): Pattern
    decreases p, 0
  {
    match p
    case Symbol(x) => if IsLiteral(scope, literals, p) then Literal(Denotation(scope, p)) else Variable(x)
    case Pair(a, b) =>
      if Denotation(scope, a) == Symbol(ellipsis) then if b.Pair? then Verbatim(b.car) else Constant(Null)
      else if b.Pair? && Denotation(scope, b.car) == Symbol(ellipsis)
      then CompileRest(scope, ellipsis, literals, Repeat(Compile(scope, ellipsis, literals, a)), b.cdr)
      else Branch(Compile(scope, ellipsis, literals, a), Compile(scope, ellipsis, literals, b))
    case _ => Constant(p)
  }

  function Repeat(p: Pattern): Pattern {
    Ellipsis(p, Variables(p))
  }

  // The rest of a list whose first element has been compiled.
  function CompileRest(scope: map<Name, Syntax>, ellipsis: Name, literals: set<Name>, first: Pattern,
                       rest: Syntax): Pattern
    decreases rest, 1
  {
    if rest.Pair? && Denotation(scope, rest.car) == Symbol(ellipsis)
    then CompileRest(scope, ellipsis, literals, Repeat(first), rest.cdr)
    else Branch(first, Compile(scope, ellipsis, literals, rest))
  }

  function Verbatim(p: Syntax): Pattern {
    match p
    case Symbol(x) => Variable(x)
    case Pair(a, b) => Branch(Verbatim(a), Verbatim(b))
    case _ => Constant(p)
  }

  /** Every ellipsis has noted down its variables. */
  predicate KnowsVariables(p: Pattern) {
    match p
    case Branch(a, b) => KnowsVariables(a) && KnowsVariables(b)
    case Ellipsis(element, variables) => variables == Variables(element) && KnowsVariables(element)
    case _ => true
  }

  lemma {:induction false} VerbatimKnowsVariables(p: Syntax)
    ensures KnowsVariables(Verbatim(p))
  {
    if p.Pair? {
      VerbatimKnowsVariables(p.car);
      VerbatimKnowsVariables(p.cdr);
    }
  }

  lemma {:induction false} CompiledKnowsVariables(scope: map<Name, Syntax>, ellipsis: Name, literals: set<Name>,
                                                  p: Syntax)
    ensures KnowsVariables(Compile(scope, ellipsis, literals, p))
    decreases p, 0
  {
    if p.Pair? {
      if Denotation(scope, p.car) == Symbol(ellipsis) {
        if p.cdr.Pair? {
          VerbatimKnowsVariables(p.cdr.car);
        }
      } else {
        CompiledKnowsVariables(scope, ellipsis, literals, p.car);
        if p.cdr.Pair? && Denotation(scope, p.cdr.car) == Symbol(ellipsis) {
          RestKnowsVariables(scope, ellipsis, literals, Repeat(Compile(scope, ellipsis, literals, p.car)), p.cdr.cdr);
        } else {
          CompiledKnowsVariables(scope, ellipsis, literals, p.cdr);
        }
      }
    }
  }

  lemma {:induction false} RestKnowsVariables(scope: map<Name, Syntax>, ellipsis: Name, literals: set<Name>,
                                              first: Pattern, rest: Syntax)
    requires KnowsVariables(first)
    ensures KnowsVariables(CompileRest(scope, ellipsis, literals, first, rest))
    decreases rest, 1
  {
    if rest.Pair? && Denotation(scope, rest.car) == Symbol(ellipsis) {
      RestKnowsVariables(scope, ellipsis, literals, Repeat(first), rest.cdr);
    } else {
      CompiledKnowsVariables(scope, ellipsis, literals, rest);
    }
  }

  predicate HasNoLiteral(p: Pattern) {
    match p
    case Branch(a, b) => HasNoLiteral(a) && HasNoLiteral(b)
    case Ellipsis(element, _) => HasNoLiteral(element)
    case Literal(_) => false
    case _ => true
  }

  /** Every ellipsis has a variable. */
  predicate HasVariables(p: Pattern) {
    match p
    case Branch(a, b) => HasVariables(a) && HasVariables(b)
    case Ellipsis(element, variables) => variables != [] && HasVariables(element)
    case _ => true
  }

  // ----- lists -----

  // The number of pairs in a list, whatever ends it.
  function Length(e: Syntax): nat {
    if e.Pair? then 1 + Length(e.cdr) else 0
  }

  function PatternLength(p: Pattern): nat {
    if p.Branch? then 1 + PatternLength(p.cdr) else 0
  }

  function Head(e: Syntax, n: nat): (r: seq<Syntax>)
    requires n <= Length(e)
    ensures |r| == n
  {
    if n == 0 then [] else [e.car] + Head(e.cdr, n - 1)
  }

  function Tail(e: Syntax, n: nat): Syntax
    requires n <= Length(e)
  {
    if n == 0 then e else Tail(e.cdr, n - 1)
  }

  function Append(items: seq<Syntax>, rest: Syntax): Syntax {
    if items == [] then rest else Pair(items[0], Append(items[1..], rest))
  }

  lemma {:induction false} AppendHeadTail(e: Syntax, n: nat)
    requires n <= Length(e)
    ensures Append(Head(e, n), Tail(e, n)) == e
  {
    if n > 0 {
      AppendHeadTail(e.cdr, n - 1);
      assert Head(e, n)[1..] == Head(e.cdr, n - 1);
    }
  }

  // ----- matching -----

  /** Matches an expression, or fails. */
  function Match(locals: map<Name, Syntax>, p: Pattern, e: Syntax): Option<Matches>
    decreases p, 0
  {
    match p
    case Variable(x) => Some([(x, One(e))])
    case Branch(a, b) =>
      if a.Ellipsis? then
        var n := Length(e) - PatternLength(b);
        if n < 0 then None
        else
          var rows, rest := MatchEach(locals, a.element, Head(e, n)), Match(locals, b, Tail(e, n));
          if rows.Some? && rest.Some? then Some(Columns(a.variables, rows.value) + rest.value) else None
      else if e.Pair? then
        var car, cdr := Match(locals, a, e.car), Match(locals, b, e.cdr);
        if car.Some? && cdr.Some? then Some(car.value + cdr.value) else None
      else None
    case Literal(d) => if Denotation(locals, e) == d then Some([]) else None
    case Constant(v) => if v == e then Some([]) else None
    case Ellipsis(_, _) => None
  }

  function MatchEach(locals: map<Name, Syntax>, p: Pattern, items: seq<Syntax>): Option<seq<Matches>>
    decreases p, 1 + |items|
  {
    if items == [] then Some([])
    else
      var first, rest := Match(locals, p, items[0]), MatchEach(locals, p, items[1..]);
      if first.Some? && rest.Some? then Some([first.value] + rest.value) else None
  }

  // Mapping over several lists stops at the end of the shortest one.
  function Shortest(n: nat, rows: seq<Matches>): (r: nat)
    ensures r <= n && forall j :: 0 <= j < |rows| ==> r <= |rows[j]|
  {
    if rows == [] then n
    else
      var m := Shortest(n, rows[1..]);
      assert forall j :: 1 <= j < |rows| ==> rows[j] == rows[1..][j - 1];
      if |rows[0]| < m then |rows[0]| else m
  }

  function Column(rows: seq<Matches>, i: nat): Matches
    requires forall j :: 0 <= j < |rows| ==> i < |rows[j]|
  {
    seq(|rows|, j requires 0 <= j < |rows| => rows[j][i])
  }

  /** Turns the matches of the elements under an ellipsis into matches of the ellipsis. */
  function Columns(variables: seq<Name>, rows: seq<Matches>): Matches {
    var n := Shortest(|variables|, rows);
    seq(n, i requires 0 <= i < n => (variables[i], Many(Column(rows, i))))
  }

  // ----- filling -----

  function Only(m: Matches, names: seq<Name>): (r: Matches) {
    if m == [] then [] else (if m[0].0 in names then [m[0]] else []) + Only(m[1..], names)
  }

  function Repeated(m: Matches): (r: Matches)
    ensures forall b <- r :: b.1.Many?
  {
    if m == [] then [] else (if m[0].1.Many? then [m[0]] else []) + Repeated(m[1..])
  }

  function Single(m: Matches): Matches {
    if m == [] then [] else (if m[0].1.Many? then [] else [m[0]]) + Single(m[1..])
  }

  function Lookup(m: Matches, x: Name): Option<Bound> {
    if m == [] then None else if m[0].0 == x then Some(m[0].1) else Lookup(m[1..], x)
  }

  // The number of rows that the columns have in common.
  function Rows(columns: Matches): nat
    requires columns != [] && forall b <- columns :: b.1.Many?
  {
    var n := |columns[0].1.bindings|;
    if |columns| == 1 then n
    else
      var m := Rows(columns[1..]);
      if n < m then n else m
  }

  lemma {:induction false} RowsAreShortest(columns: Matches, i: nat)
    requires columns != [] && (forall b <- columns :: b.1.Many?) && i < |columns|
    ensures Rows(columns) <= |columns[i].1.bindings|
    decreases |columns|
  {
    if i > 0 {
      RowsAreShortest(columns[1..], i - 1);
    }
  }

  function Row(columns: Matches, j: nat): Matches
    requires forall b <- columns :: b.1.Many? && j < |b.1.bindings|
  {
    seq(|columns|, i requires 0 <= i < |columns| => columns[i].1.bindings[j])
  }

  /** Fills a template: the elements it stands for in the list around it. It fails where the source does or
      where it would put a list of matches into an expression. */
  function Fill(m: Matches, t: Pattern): Option<seq<Syntax>>
    decreases t, 0
  {
    match t
    case Variable(x) =>
      var bound := Lookup(m, x);
      if bound.None? then Some([Symbol(x)])
      else if bound.value.One? then Some([bound.value.value]) else None
    case Branch(a, b) =>
      var car, cdr := Fill(m, a), Fill(m, b);
      if car.Some? && cdr.Some? && |cdr.value| == 1 then Some([Append(car.value, cdr.value[0])]) else None
    case Literal(d) => Some([d])
    case Constant(v) => Some([v])
    case Ellipsis(element, variables) =>
      var mine := Only(m, variables);
      var columns := Repeated(mine);
      if columns == [] then None else FillEach(columns, Single(mine), 0, element)
  }

  function FillEach(columns: Matches, single: Matches, j: nat, t: Pattern): Option<seq<Syntax>>
    requires columns != [] && forall b <- columns :: b.1.Many?
    decreases t, 1 + if j < Rows(columns) then Rows(columns) - j else 0
  {
    if j >= Rows(columns) then Some([])
    else
      assert forall b <- columns :: b.1.Many? && j < |b.1.bindings| by {
        forall i | 0 <= i < |columns| ensures j < |columns[i].1.bindings| {
          RowsAreShortest(columns, i);
        }
      }
      var first, rest := Fill(Row(columns, j) + single, t), FillEach(columns, single, j + 1, t);
      if first.Some? && rest.Some? then Some(first.value + rest.value) else None
  }

  function FillTop(m: Matches, t: Pattern): Option<Syntax> {
    var r := Fill(m, t);
    if r.Some? && r.value != [] then Some(r.value[0]) else None
  }

  // ----- matches of a pattern -----

  function Keys(m: Matches): seq<Name> {
    seq(|m|, i requires 0 <= i < |m| => m[i].0)
  }

  lemma {:induction false} KeysAre(m: Matches, names: seq<Name>)
    requires Keys(m) == names
    ensures |m| == |names| && forall i :: 0 <= i < |m| ==> m[i].0 == names[i] && m[i].0 in names
  {
    assert forall i :: 0 <= i < |m| ==> Keys(m)[i] == m[i].0;
  }

  /** A match binds the variables of the pattern in order. */
  lemma {:induction false} MatchBinds(locals: map<Name, Syntax>, p: Pattern, e: Syntax)
    requires KnowsVariables(p) && Match(locals, p, e).Some?
    ensures Keys(Match(locals, p, e).value) == Variables(p)
    decreases p, 1
  {
    hide Length, PatternLength, Head, Tail, MatchEach;
    if p.Branch? {
      if p.car.Ellipsis? {
        EllipsisBinds(locals, p, e);
      } else {
        MatchBinds(locals, p.car, e.car);
        MatchBinds(locals, p.cdr, e.cdr);
      }
    }
  }

  lemma {:induction false} EllipsisBinds(locals: map<Name, Syntax>, p: Pattern, e: Syntax)
    requires KnowsVariables(p) && Match(locals, p, e).Some? && p.Branch? && p.car.Ellipsis?
    ensures Keys(Match(locals, p, e).value) == Variables(p)
    decreases p, 0
  {
    hide Head, Tail, MatchEach, Columns, Keys;
    var n := Length(e) - PatternLength(p.cdr);
    MatchEachBinds(locals, p.car.element, Head(e, n));
    MatchBinds(locals, p.cdr, Tail(e, n));
    var rows := MatchEach(locals, p.car.element, Head(e, n)).value;
    RowsAreLong(p.car.variables, rows);
    ColumnKeys(p.car.variables, rows);
    KeysAppend(Columns(p.car.variables, rows), Match(locals, p.cdr, Tail(e, n)).value);
  }

  lemma {:induction false} KeysAppend(a: Matches, b: Matches)
    ensures Keys(a + b) == Keys(a) + Keys(b)
  {
  }

  lemma {:induction false} MatchEachBinds(locals: map<Name, Syntax>, p: Pattern, items: seq<Syntax>)
    requires KnowsVariables(p) && MatchEach(locals, p, items).Some?
    ensures var rows := MatchEach(locals, p, items).value;
            |rows| == |items| && forall j :: 0 <= j < |rows| ==>
              Match(locals, p, items[j]) == Some(rows[j]) && Keys(rows[j]) == Variables(p)
    decreases p, 1 + |items|
  {
    if items != [] {
      MatchBinds(locals, p, items[0]);
      MatchEachBinds(locals, p, items[1..]);
    }
  }

  lemma {:induction false} RowsAreLong(names: seq<Name>, rows: seq<Matches>)
    requires forall j :: 0 <= j < |rows| ==> Keys(rows[j]) == names
    ensures Shortest(|names|, rows) == |names|
    decreases |rows|
  {
    if rows != [] {
      RowsAreLong(names, rows[1..]);
      assert |Keys(rows[0])| == |rows[0]|;
    }
  }

  // ----- picking out matches -----

  lemma {:induction false} OnlyAppend(a: Matches, b: Matches, names: seq<Name>)
    ensures Only(a + b, names) == Only(a, names) + Only(b, names)
    decreases |a|
  {
    if a == [] {
      assert a + b == b;
    } else {
      var first: Matches := if a[0].0 in names then [a[0]] else [];
      assert (a + b)[1..] == a[1..] + b && (a + b)[0] == a[0];
      assert Only(a + b, names) == first + Only(a[1..] + b, names);
      OnlyAppend(a[1..], b, names);
      hide Only;
      assert first + (Only(a[1..], names) + Only(b, names)) == first + Only(a[1..], names) + Only(b, names);
    }
  }

  lemma {:induction false} OnlyAll(m: Matches, names: seq<Name>)
    requires forall i :: 0 <= i < |m| ==> m[i].0 in names
    ensures Only(m, names) == m
  {
    if m != [] {
      OnlyAll(m[1..], names);
    }
  }

  lemma {:induction false} OnlyNone(m: Matches, names: seq<Name>)
    requires forall i :: 0 <= i < |m| ==> m[i].0 !in names
    ensures Only(m, names) == []
  {
    if m != [] {
      OnlyNone(m[1..], names);
    }
  }

  lemma {:induction false} OnlyOnly(m: Matches, names: seq<Name>, fewer: seq<Name>)
    requires forall x <- fewer :: x in names
    ensures Only(Only(m, names), fewer) == Only(m, fewer)
  {
    if m != [] {
      OnlyOnly(m[1..], names, fewer);
      OnlyAppend(if m[0].0 in names then [m[0]] else [], Only(m[1..], names), fewer);
    }
  }

  lemma {:induction false} LookupOnly(m: Matches, x: Name, bound: Bound)
    requires Only(m, [x]) == [(x, bound)]
    ensures Lookup(m, x) == Some(bound)
  {
    if m[0].0 != x {
      LookupOnly(m[1..], x, bound);
    } else {
      assert Only(m, [x])[0] == m[0];
    }
  }

  /** The matches of two parts of a pattern without common variables can be told apart. */
  lemma {:induction false} SplitMatches(env: Matches, a: Matches, b: Matches, names: seq<Name>, more: seq<Name>)
    requires Only(env, names + more) == a + b && Keys(a) == names && Keys(b) == more && Distinct(names + more)
    ensures Only(env, names) == a && Only(env, more) == b
  {
    hide Only, Keys;
    OnlyOnly(env, names + more, names);
    OnlyOnly(env, names + more, more);
    OnlyAppend(a, b, names);
    OnlyAppend(a, b, more);
    KeysAre(a, names);
    KeysAre(b, more);
    forall i, j | 0 <= i < |names| && 0 <= j < |more| ensures names[i] != more[j] {
      assert (names + more)[i] != (names + more)[|names| + j];
    }
    OnlyAll(a, names);
    OnlyNone(b, names);
    OnlyNone(a, more);
    OnlyAll(b, more);
    assert a + [] == a && [] + b == b;
  }

  lemma {:induction false} DistinctParts(a: seq<Name>, b: seq<Name>)
    requires Distinct(a + b)
    ensures Distinct(a) && Distinct(b)
  {
    forall i, j | 0 <= i < j < |b| ensures b[i] != b[j] {
      assert (a + b)[|a| + i] != (a + b)[|a| + j];
    }
    forall i, j | 0 <= i < j < |a| ensures a[i] != a[j] {
      assert (a + b)[i] != (a + b)[j];
    }
  }

  // ----- columns and rows -----

  lemma {:induction false} AllRepeated(m: Matches)
    requires forall i :: 0 <= i < |m| ==> m[i].1.Many?
    ensures Repeated(m) == m && Single(m) == []
  {
    if m != [] {
      AllRepeated(m[1..]);
    }
  }

  lemma {:induction false} AllRows(columns: Matches, n: nat)
    requires columns != []
    requires forall i :: 0 <= i < |columns| ==> columns[i].1.Many? && |columns[i].1.bindings| == n
    ensures Rows(columns) == n
    decreases |columns|
  {
    if |columns| > 1 {
      AllRows(columns[1..], n);
    }
  }

  /** Rows and columns of the same matches. */
  predicate IsTable(names: seq<Name>, rows: seq<Matches>, columns: Matches) {
    && columns == Columns(names, rows) && |columns| == |names|
    && forall j :: 0 <= j < |rows| ==> Keys(rows[j]) == names
  }

  lemma {:induction false} TableRow(names: seq<Name>, rows: seq<Matches>, columns: Matches, j: nat)
    requires IsTable(names, rows, columns) && j < |rows|
    ensures forall b <- columns :: b.1.Many? && j < |b.1.bindings|
    ensures Row(columns, j) == rows[j]
  {
    RowsAreLong(names, rows);
    assert |Keys(rows[j])| == |names|;
  }

  // ----- the round trip -----

  /** Filling a pattern with its own match gives the matched expression back, at any depth of ellipses. */
  lemma {:induction false} FillInvertsMatch(locals: map<Name, Syntax>, p: Pattern, e: Syntax, env: Matches)
    requires KnowsVariables(p) && HasNoLiteral(p) && HasVariables(p) && Distinct(Variables(p))
    requires Match(locals, p, e).Some? && Only(env, Variables(p)) == Match(locals, p, e).value
    ensures Fill(env, p) == Some([e])
    decreases p, 1
  {
    match p
    case Variable(x) => LookupOnly(env, x, One(e));
    case Constant(_) =>
    case Branch(a, b) =>
      DistinctParts(Variables(a), Variables(b));
      if a.Ellipsis? {
        FillInvertsList(locals, p, e, env);
      } else {
        MatchBinds(locals, a, e.car);
        MatchBinds(locals, b, e.cdr);
        SplitMatches(env, Match(locals, a, e.car).value, Match(locals, b, e.cdr).value, Variables(a), Variables(b));
        FillInvertsMatch(locals, a, e.car, env);
        FillInvertsMatch(locals, b, e.cdr, env);
        assert Append([e.car], e.cdr) == Pair(e.car, Append([], e.cdr)) by {
          assert [e.car][1..] == [];
        }
      }
  }

  lemma {:induction false} FillInvertsList(locals: map<Name, Syntax>, p: Pattern, e: Syntax, env: Matches)
    requires p.Branch? && p.car.Ellipsis?
    requires KnowsVariables(p) && HasNoLiteral(p) && HasVariables(p) && Distinct(Variables(p))
    requires Match(locals, p, e).Some? && Only(env, Variables(p)) == Match(locals, p, e).value
    ensures Fill(env, p) == Some([e])
    decreases p, 0
  {
    hide Only, Distinct, Keys;
    var a, b, n := p.car, p.cdr, Length(e) - PatternLength(p.cdr);
    var items, tail := Head(e, n), Tail(e, n);
    var rows := MatchEach(locals, a.element, items).value;
    var columns := Columns(a.variables, rows);
    DistinctParts(Variables(a), Variables(b));
    MatchEachBinds(locals, a.element, items);
    RowsAreLong(a.variables, rows);
    MatchBinds(locals, b, tail);
    ColumnKeys(a.variables, rows);
    SplitMatches(env, columns, Match(locals, b, tail).value, a.variables, Variables(b));
    FillInvertsMatch(locals, b, tail, env);
    FillInvertsEllipsis(locals, a, items, rows, columns, env);
    AppendHeadTail(e, n);
  }

  lemma {:induction false} ColumnKeys(names: seq<Name>, rows: seq<Matches>)
    requires Shortest(|names|, rows) == |names|
    ensures Keys(Columns(names, rows)) == names
  {
  }

  lemma {:induction false} FillInvertsEllipsis(locals: map<Name, Syntax>, p: Pattern, items: seq<Syntax>,
                                               rows: seq<Matches>, columns: Matches, env: Matches)
    requires p.Ellipsis? && KnowsVariables(p) && HasNoLiteral(p) && HasVariables(p) && Distinct(Variables(p))
    requires MatchEach(locals, p.element, items) == Some(rows) && IsTable(p.variables, rows, columns)
    requires |rows| == |items| && Only(env, p.variables) == columns
    ensures Fill(env, p) == Some(items)
    decreases p, 0
  {
    RowsAreLong(p.variables, rows);
    AllRepeated(columns);
    AllRows(columns, |rows|);
    FillInvertsEach(locals, p.element, items, rows, columns, p.variables, 0);
    assert items[0..] == items;
  }

  lemma {:induction false} FillInvertsEach(locals: map<Name, Syntax>, p: Pattern, items: seq<Syntax>,
                                           rows: seq<Matches>, columns: Matches, names: seq<Name>, j: nat)
    requires KnowsVariables(p) && HasNoLiteral(p) && HasVariables(p) && Distinct(names) && names == Variables(p)
    requires MatchEach(locals, p, items) == Some(rows) && IsTable(names, rows, columns) && |rows| == |items|
    requires columns != [] && (forall b <- columns :: b.1.Many?) && Rows(columns) == |rows| && j <= |rows|
    ensures FillEach(columns, [], j, p) == Some(items[j..])
    decreases p, 2 + |rows| - j
  {
    hide Distinct, HasVariables, HasNoLiteral, KnowsVariables, Match, MatchEach, Fill;
    if j < |rows| {
      TableRow(names, rows, columns, j);
      MatchEachBinds(locals, p, items);
      assert rows[j] + [] == rows[j];
      KeysAre(rows[j], names);
      OnlyAll(rows[j], names);
      FillInvertsMatch(locals, p, items[j], rows[j]);
      FillInvertsEach(locals, p, items, rows, columns, names, j + 1);
      assert [items[j]] + items[j + 1..] == items[j..];
    }
  }

  /** Compiling, matching and filling, as a macro that is its own template does. */
  lemma {:induction false} MacroRoundTrip(scope: map<Name, Syntax>, ellipsis: Name, literals: set<Name>,
                                          locals: map<Name, Syntax>, source: Syntax, e: Syntax)
    requires var p := Compile(scope, ellipsis, literals, source);
             HasNoLiteral(p) && HasVariables(p) && Distinct(Variables(p)) && Match(locals, p, e).Some?
    ensures var p := Compile(scope, ellipsis, literals, source);
            FillTop(Match(locals, p, e).value, p) == Some(e)
  {
    var p := Compile(scope, ellipsis, literals, source);
    var m := Match(locals, p, e).value;
    CompiledKnowsVariables(scope, ellipsis, literals, source);
    MatchBinds(locals, p, e);
    KeysAre(m, Variables(p));
    OnlyAll(m, Variables(p));
    FillInvertsMatch(locals, p, e, m);
  }

  // ----- what the conditions are for -----

  /** A variable that occurs twice keeps its first value only. */
  lemma {:induction false} RepeatedVariableForgets()
    ensures var p := Branch(Variable("x"), Branch(Variable("x"), Constant(Null)));
            var e := Pair(Number(1), Pair(Number(2), Null));
            var m := Match(map[], p, e);
            m.Some? && FillTop(m.value, p) == Some(Pair(Number(1), Pair(Number(1), Null)))
  {
    var x, null_ := Variable("x"), Constant(Null);
    var m := [("x", One(Number(1))), ("x", One(Number(2)))];
    assert [m[1]] + [] == [m[1]] && [m[0]] + [m[1]] == m;
    assert Match(map[], null_, Null) == Some([]);
    assert Match(map[], Branch(x, null_), Pair(Number(2), Null)) == Some([m[1]]);
    assert Match(map[], Branch(x, Branch(x, null_)), Pair(Number(1), Pair(Number(2), Null))) == Some(m);
    assert [Number(1)][1..] == [];
    assert Append([Number(1)], Null) == Pair(Number(1), Null);
    assert Fill(m, Branch(x, null_)) == Some([Pair(Number(1), Null)]);
    assert Append([Number(1)], Pair(Number(1), Null)) == Pair(Number(1), Pair(Number(1), Null));
  }

  /** An ellipsis without variables matches but cannot be filled. */
  lemma {:induction false} EllipsisNeedsVariable(locals: map<Name, Syntax>, v: Syntax, m: Matches)
    ensures Match(locals, Branch(Repeat(Constant(v)), Constant(Null)), Pair(v, Null)).Some?
    ensures Fill(m, Repeat(Constant(v))) == None
  {
    var e := Pair(v, Null);
    assert Head(e, 1) == [v] && Tail(e, 1) == Null;
    assert MatchEach(locals, Constant(v), []) == Some([]);
    assert [v][1..] == [];
    assert MatchEach(locals, Constant(v), [v]).Some?;
    OnlyNone(m, []);
  }

  /** A literal is filled with what the pattern means, not with the name that was matched. */
  lemma {:induction false} LiteralForgetsName(locals: map<Name, Syntax>, x: Name)
    requires x in locals
    ensures Match(locals, Literal(locals[x]), Symbol(x)) == Some([])
    ensures FillTop([], Literal(locals[x])) == Some(locals[x])
  {
  }
}
