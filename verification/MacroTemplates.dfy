/** What templates of `syntax-rules` stand for: filling in `compile.scm` against substitution. */
module MacroTemplates {
  import opened Distinctness
  import opened Options
  import opened Macros

  // ----- what variables stand for -----

  /** An expression, or one tree for every repetition of the ellipsis over the variable. */
  datatype Tree = Leaf(value: Syntax) | Forest(trees: seq<Tree>)

  function TreeOf(b: Bound): Tree
    decreases b
  {
    match b
    case One(v) => Leaf(v)
    case Many(bindings) =>
      Forest(seq(|bindings|, j requires 0 <= j < |bindings| => TreeOf(bindings[j].1)))
  }

  /** The first match of a name counts. */
  function Meanings(m: Matches): map<Name, Tree> {
    if m == [] then map[] else Meanings(m[1..])[m[0].0 := TreeOf(m[0].1)]
  }

  // What is repeated is a value of the same variable.
  predicate IsNamed(x: Name, b: Bound)
    decreases b
  {
    b.One? || forall j :: 0 <= j < |b.bindings| ==> b.bindings[j].0 == x && IsNamed(x, b.bindings[j].1)
  }

  /** Matches of a pattern with distinct variables, perhaps with values of other names: no name has a repeated value
      and another one. */
  predicate IsMatch(m: Matches) {
    && (forall i, j :: 0 <= i < j < |m| && m[i].0 == m[j].0 ==> m[i].1.One? && m[j].1.One?)
    && forall i :: 0 <= i < |m| ==> IsNamed(m[i].0, m[i].1)
  }

  lemma {:induction false} LookupIsMeaning(m: Matches, x: Name)
    ensures Lookup(m, x).Some? <==> x in Meanings(m)
    ensures Lookup(m, x).Some? ==> TreeOf(Lookup(m, x).value) == Meanings(m)[x]
    decreases |m|
  {
    if m != [] && m[0].0 != x {
      LookupIsMeaning(m[1..], x);
    }
  }

  lemma {:induction false} LookupFinds(m: Matches, x: Name)
    requires Lookup(m, x).Some?
    ensures (x, Lookup(m, x).value) in m
    decreases |m|
  {
    if m[0].0 != x {
      LookupFinds(m[1..], x);
    }
  }

  /** A repeated value is the only one of its name. */
  lemma {:induction false} RepeatedIsFound(m: Matches, i: nat)
    requires IsMatch(m) && i < |m| && m[i].1.Many?
    ensures Lookup(m, m[i].0) == Some(m[i].1)
    decreases |m|
  {
    if i > 0 {
      assert m[0].0 != m[i].0;
      assert IsMatch(m[1..]);
      RepeatedIsFound(m[1..], i - 1);
    }
  }

  // ----- expansion -----

  predicate IsRepeated(env: map<Name, Tree>, x: Name) {
    x in env && env[x].Forest?
  }

  /** The number of copies of a template under an ellipsis: as many as the shortest of its repeated variables has
      values. */
  function Copies(env: map<Name, Tree>, names: seq<Name>): Option<nat> {
    if names == [] then None
    else
      var rest := Copies(env, names[1..]);
      if !IsRepeated(env, names[0]) then rest
      else
        var n := |env[names[0]].trees|;
        if rest.None? || n < rest.value then Some(n) else rest
  }

  lemma {:induction false} CopiesAreLeast(env: map<Name, Tree>, names: seq<Name>)
    ensures Copies(env, names).Some? <==> exists x :: x in names && IsRepeated(env, x)
    ensures Copies(env, names).Some? ==>
              && (exists x :: x in names && IsRepeated(env, x) && |env[x].trees| == Copies(env, names).value)
              && forall x :: x in names && IsRepeated(env, x) ==> Copies(env, names).value <= |env[x].trees|
  {
    if names != [] {
      CopiesAreLeast(env, names[1..]);
      assert names == [names[0]] + names[1..];
    }
  }

  /** What the variables under an ellipsis stand for in one copy: their own values in it, or what they stand for
      outside if they are not repeated. */
  function Inside(env: map<Name, Tree>, names: seq<Name>, j: nat): map<Name, Tree> {
    map x | x in env && x in names ::
      if env[x].Forest? && j < |env[x].trees| then env[x].trees[j] else env[x]
  }

  /** The elements a template stands for. */
  function Expand(env: map<Name, Tree>, t: Pattern): Option<seq<Syntax>>
    decreases t, 0
  {
    match t
    case Variable(x) =>
      if x !in env then Some([Symbol(x)]) else if env[x].Leaf? then Some([env[x].value]) else None
    case Branch(a, b) =>
      var car, cdr := Expand(env, a), Expand(env, b);
      if car.Some? && cdr.Some? && |cdr.value| == 1 then Some([Append(car.value, cdr.value[0])]) else None
    case Literal(d) => Some([d])
    case Constant(v) => Some([v])
    case Ellipsis(element, names) =>
      var n := Copies(env, names);
      if n.None? then None else ExpandCopies(env, names, n.value, element)
  }

  function ExpandCopies(env: map<Name, Tree>, names: seq<Name>, n: nat, t: Pattern): Option<seq<Syntax>>
    decreases t, 1 + n
  {
    if n == 0 then Some([])
    else
      var others, last := ExpandCopies(env, names, n - 1, t), Expand(Inside(env, names, n - 1), t);
      if others.Some? && last.Some? then Some(others.value + last.value) else None
  }

  // ----- picking out matches -----

  lemma {:induction false} LookupAppend(a: Matches, b: Matches, x: Name)
    ensures Lookup(a + b, x) == if Lookup(a, x).Some? then Lookup(a, x) else Lookup(b, x)
    decreases |a|
  {
    if a == [] {
      assert a + b == b;
    } else {
      assert (a + b)[1..] == a[1..] + b && (a + b)[0] == a[0];
      if a[0].0 != x {
        LookupAppend(a[1..], b, x);
      }
    }
  }

  lemma {:induction false} LookupOnlyNames(m: Matches, names: seq<Name>, x: Name)
    ensures Lookup(Only(m, names), x) == if x in names then Lookup(m, x) else None
  {
    if m != [] {
      LookupOnlyNames(m[1..], names, x);
      LookupAppend(if m[0].0 in names then [m[0]] else [], Only(m[1..], names), x);
    }
  }

  lemma {:induction false} LookupParts(m: Matches, x: Name)
    requires IsMatch(m)
    ensures Lookup(Repeated(m), x)
            == if Lookup(m, x).Some? && Lookup(m, x).value.Many? then Lookup(m, x) else None
    ensures Lookup(Single(m), x)
            == if Lookup(m, x).Some? && Lookup(m, x).value.One? then Lookup(m, x) else None
  {
    if m != [] {
      assert IsMatch(m[1..]);
      LookupParts(m[1..], x);
      LookupAppend(if m[0].1.Many? then [m[0]] else [], Repeated(m[1..]), x);
      LookupAppend(if m[0].1.Many? then [] else [m[0]], Single(m[1..]), x);
      if m[0].0 == x && Lookup(m[1..], x).Some? {
        LookupFinds(m[1..], x);
        var i :| 0 <= i < |m[1..]| && m[1..][i] == (x, Lookup(m[1..], x).value);
        assert m[0].0 == m[1 + i].0;
      }
    }
  }

  lemma {:induction false} OnlyIsMatch(m: Matches, names: seq<Name>)
    requires IsMatch(m)
    ensures IsMatch(Only(m, names))
    ensures forall b :: b in Only(m, names) <==> b in m && b.0 in names
  {
    if m != [] {
      var rest := Only(m[1..], names);
      assert IsMatch(m[1..]) && m == [m[0]] + m[1..];
      OnlyIsMatch(m[1..], names);
      forall i | 0 <= i < |rest| && rest[i].0 == m[0].0 ensures rest[i].1.One? && m[0].1.One? {
        assert rest[i] in m[1..];
      }
    }
  }

  lemma {:induction false} RepeatedIsMatch(m: Matches)
    requires IsMatch(m)
    ensures IsMatch(Repeated(m))
    ensures forall b :: b in Repeated(m) <==> b in m && b.1.Many?
  {
    if m != [] {
      var rest := Repeated(m[1..]);
      assert IsMatch(m[1..]) && m == [m[0]] + m[1..];
      RepeatedIsMatch(m[1..]);
      forall i | 0 <= i < |rest| && rest[i].0 == m[0].0 ensures rest[i].1.One? && m[0].1.One? {
        assert rest[i] in m[1..];
      }
    }
  }

  lemma {:induction false} SingleIsMatch(m: Matches)
    requires IsMatch(m)
    ensures IsMatch(Single(m))
    ensures forall b :: b in Single(m) <==> b in m && b.1.One?
  {
    if m != [] {
      var rest := Single(m[1..]);
      assert IsMatch(m[1..]) && m == [m[0]] + m[1..];
      SingleIsMatch(m[1..]);
      forall i | 0 <= i < |rest| && rest[i].0 == m[0].0 ensures rest[i].1.One? && m[0].1.One? {
        assert rest[i] in m[1..];
      }
    }
  }

  // ----- one copy -----

  ghost predicate AreParts(m: Matches, names: seq<Name>, columns: Matches, single: Matches) {
    && IsMatch(m) && IsMatch(columns) && IsMatch(single)
    && (forall b :: b in columns <==> b in m && b.0 in names && b.1.Many?)
    && (forall b :: b in single <==> b in m && b.0 in names && b.1.One?)
    && (forall x :: Lookup(columns, x)
                    == if x in names && Lookup(m, x).Some? && Lookup(m, x).value.Many? then Lookup(m, x) else None)
    && forall x :: Lookup(single, x)
                   == if x in names && Lookup(m, x).Some? && Lookup(m, x).value.One? then Lookup(m, x) else None
  }

  lemma {:induction false} PartsAre(m: Matches, names: seq<Name>)
    requires IsMatch(m)
    ensures AreParts(m, names, Repeated(Only(m, names)), Single(Only(m, names)))
  {
    hide IsMatch, Only, Repeated, Single, Lookup;
    OnlyIsMatch(m, names);
    RepeatedIsMatch(Only(m, names));
    SingleIsMatch(Only(m, names));
    forall x
      ensures Lookup(Repeated(Only(m, names)), x)
              == if x in names && Lookup(m, x).Some? && Lookup(m, x).value.Many? then Lookup(m, x) else None
      ensures Lookup(Single(Only(m, names)), x)
              == if x in names && Lookup(m, x).Some? && Lookup(m, x).value.One? then Lookup(m, x) else None
    {
      LookupOnlyNames(m, names, x);
      LookupParts(Only(m, names), x);
    }
  }

  lemma {:induction false} RowIsMatch(m: Matches, names: seq<Name>, columns: Matches, single: Matches, j: nat)
    requires AreParts(m, names, columns, single)
    requires forall b <- columns :: b.1.Many? && j < |b.1.bindings|
    ensures IsMatch(Row(columns, j) + single)
    ensures forall i :: 0 <= i < |columns| ==> Row(columns, j)[i].0 == columns[i].0
  {
    hide Lookup;
    var row := Row(columns, j);
    forall i | 0 <= i < |columns| ensures row[i].0 == columns[i].0 && IsNamed(row[i].0, row[i].1) {
      assert IsNamed(columns[i].0, columns[i].1) && columns[i] in columns;
    }
    forall i, k | 0 <= i < k < |row| ensures row[i].0 != row[k].0 {
      assert columns[i] in columns;
    }
    forall i, k | 0 <= i < |row| && 0 <= k < |single| ensures row[i].0 != single[k].0 {
      assert columns[i] in columns && single[k] in single;
      RepeatedNameIsOther(m, columns[i], single[k]);
    }
  }

  lemma {:induction false} RepeatedNameIsOther(m: Matches, a: (Name, Bound), b: (Name, Bound))
    requires IsMatch(m) && a in m && b in m && a.1.Many? && b.1.One?
    ensures a.0 != b.0
  {
    var i :| 0 <= i < |m| && m[i] == a;
    var j :| 0 <= j < |m| && m[j] == b;
    assert i < j || j < i;
  }

  lemma {:induction false} LookupRow(columns: Matches, j: nat, x: Name)
    requires forall b <- columns :: b.1.Many? && j < |b.1.bindings|
    requires forall i :: 0 <= i < |columns| ==> Row(columns, j)[i].0 == columns[i].0
    ensures Lookup(Row(columns, j), x).Some? <==> Lookup(columns, x).Some?
    ensures Lookup(columns, x).Some? ==>
              && Lookup(columns, x).value.Many? && j < |Lookup(columns, x).value.bindings|
              && Lookup(Row(columns, j), x) == Some(Lookup(columns, x).value.bindings[j].1)
    decreases |columns|
  {
    if columns != [] {
      var rest := columns[1..];
      assert Row(columns, j)[1..] == Row(rest, j);
      assert forall i :: 0 <= i < |rest| ==> Row(rest, j)[i] == Row(columns, j)[i + 1];
      LookupRow(rest, j, x);
    }
  }

  /** The matches in one copy mean what the variables stand for there. */
  lemma {:induction false} RowMeans(m: Matches, names: seq<Name>, columns: Matches, single: Matches, j: nat)
    requires AreParts(m, names, columns, single)
    requires forall b <- columns :: b.1.Many? && j < |b.1.bindings|
    ensures Meanings(Row(columns, j) + single) == Inside(Meanings(m), names, j)
  {
    var inner := Row(columns, j) + single;
    RowIsMatch(m, names, columns, single, j);
    hide IsMatch, Meanings, Lookup, Row;
    forall x
      ensures x in Meanings(inner) <==> x in Inside(Meanings(m), names, j)
      ensures x in Meanings(inner) ==> Meanings(inner)[x] == Inside(Meanings(m), names, j)[x]
    {
      LookupIsMeaning(inner, x);
      LookupIsMeaning(m, x);
      LookupAppend(Row(columns, j), single, x);
      LookupRow(columns, j, x);
    }
  }

  lemma {:induction false} RowsAreAttained(columns: Matches) returns (i: nat)
    requires columns != [] && forall b <- columns :: b.1.Many?
    ensures i < |columns| && columns[i].1.Many? && Rows(columns) == |columns[i].1.bindings|
    decreases |columns|
  {
    i := 0;
    if |columns| > 1 {
      i := RowsAreAttained(columns[1..]);
      i := if |columns[0].1.bindings| < Rows(columns[1..]) then 0 else i + 1;
    }
  }

  /** There is one copy for every row. */
  lemma {:induction false} RowsAreCopies(m: Matches, names: seq<Name>, columns: Matches, single: Matches)
    requires AreParts(m, names, columns, single)
    ensures columns == [] <==> Copies(Meanings(m), names).None?
    ensures columns != [] ==> Copies(Meanings(m), names) == Some(Rows(columns))
  {
    hide IsMatch, Meanings, Copies, Rows, Lookup;
    var env := Meanings(m);
    CopiesAreLeast(env, names);
    if Copies(env, names).Some? {
      var x :| x in names && IsRepeated(env, x) && |env[x].trees| == Copies(env, names).value;
      LookupIsMeaning(m, x);
      LookupFinds(columns, x);
      var k :| 0 <= k < |columns| && columns[k] == (x, Lookup(columns, x).value);
      RowsAreShortest(columns, k);
    }
    if columns != [] {
      var i := RowsAreAttained(columns);
      assert columns[i] in columns;
      RepeatedIsFound(columns, i);
      LookupIsMeaning(m, columns[i].0);
      assert columns[i].0 in names && IsRepeated(env, columns[i].0);
    }
  }

  // ----- filling is expansion -----

  /** Filling a template gives what it stands for, at any depth of ellipses, and fails exactly if it does not stand
      for anything. */
  lemma {:induction false} FillExpands(m: Matches, t: Pattern)
    requires IsMatch(m)
    ensures Fill(m, t) == Expand(Meanings(m), t)
    decreases t, 0
  {
    hide IsMatch, Meanings, FillEach;
    match t
    case Variable(x) => LookupIsMeaning(m, x);
    case Branch(a, b) =>
      FillExpands(m, a);
      FillExpands(m, b);
    case Ellipsis(element, names) =>
      var columns, single := Repeated(Only(m, names)), Single(Only(m, names));
      PartsAre(m, names);
      RowsAreCopies(m, names, columns, single);
      if columns != [] {
        CopiesExpand(m, names, columns, single, element, 0);
        var copies := FillEach(columns, single, 0, element);
        assert copies.Some? ==> [] + copies.value == copies.value;
      }
    case _ =>
  }

  lemma {:induction false} CopiesExpand(m: Matches, names: seq<Name>, columns: Matches, single: Matches, t: Pattern,
                                        j: nat)
    requires AreParts(m, names, columns, single) && columns != [] && (forall b <- columns :: b.1.Many?)
    requires j <= Rows(columns)
    ensures var before, after := ExpandCopies(Meanings(m), names, j, t), FillEach(columns, single, j, t);
            ExpandCopies(Meanings(m), names, Rows(columns), t) ==
              if before.Some? && after.Some? then Some(before.value + after.value) else None
    decreases t, 1 + Rows(columns) - j
  {
    hide AreParts, IsMatch, Meanings, Rows, Fill, Expand, Inside;
    var env, n := Meanings(m), Rows(columns);
    if j < n {
      forall b | b in columns ensures j < |b.1.bindings| {
        var i :| 0 <= i < |columns| && columns[i] == b;
        RowsAreShortest(columns, i);
      }
      CopiesExpand(m, names, columns, single, t, j + 1);
      RowIsMatch(m, names, columns, single, j);
      RowMeans(m, names, columns, single, j);
      FillExpands(Row(columns, j) + single, t);
      var before, here, after :=
        ExpandCopies(env, names, j, t), Expand(Inside(env, names, j), t), FillEach(columns, single, j + 1, t);
      if before.Some? && here.Some? && after.Some? {
        assert (before.value + here.value) + after.value == before.value + (here.value + after.value);
      }
    } else {
      var all := ExpandCopies(env, names, n, t);
      if all.Some? {
        assert all.value + [] == all.value;
      }
    }
  }

  // ----- what a pattern gives is a match -----

  lemma {:induction false} MatchIsNamed(locals: map<Name, Syntax>, p: Pattern, e: Syntax)
    requires KnowsVariables(p) && Match(locals, p, e).Some?
    ensures forall b :: b in Match(locals, p, e).value ==> IsNamed(b.0, b.1)
    decreases p, 1
  {
    hide Length, PatternLength, Head, Tail, MatchEach, Columns;
    if p.Branch? {
      if p.car.Ellipsis? {
        var n := Length(e) - PatternLength(p.cdr);
        ColumnsAreNamed(locals, p.car, Head(e, n));
        MatchIsNamed(locals, p.cdr, Tail(e, n));
      } else {
        MatchIsNamed(locals, p.car, e.car);
        MatchIsNamed(locals, p.cdr, e.cdr);
      }
    }
  }

  lemma {:induction false} ColumnsAreNamed(locals: map<Name, Syntax>, p: Pattern, items: seq<Syntax>)
    requires p.Ellipsis? && KnowsVariables(p) && MatchEach(locals, p.element, items).Some?
    ensures forall b :: b in Columns(p.variables, MatchEach(locals, p.element, items).value) ==> IsNamed(b.0, b.1)
    decreases p, 0
  {
    hide Match, MatchEach;
    MatchEachBinds(locals, p.element, items);
    var rows: seq<Matches> := MatchEach(locals, p.element, items).value;
    forall j | 0 <= j < |rows| ensures forall b :: b in rows[j] ==> IsNamed(b.0, b.1) {
      MatchIsNamed(locals, p.element, items[j]);
    }
    forall j | 0 <= j < |rows| ensures forall i :: 0 <= i < |rows[j]| ==> rows[j][i].0 == p.variables[i] {
      KeysAre(rows[j], p.variables);
    }
    ColumnsKeepNames(p.variables, rows);
  }

  lemma {:induction false} ColumnsKeepNames(names: seq<Name>, rows: seq<Matches>)
    requires forall j :: 0 <= j < |rows| ==> |rows[j]| <= |names|
    requires forall j, i :: 0 <= j < |rows| && 0 <= i < |rows[j]| ==>
               rows[j][i].0 == names[i] && IsNamed(rows[j][i].0, rows[j][i].1)
    ensures forall b :: b in Columns(names, rows) ==> IsNamed(b.0, b.1)
  {
  }

  lemma {:induction false} MatchIsMatch(locals: map<Name, Syntax>, p: Pattern, e: Syntax)
    requires KnowsVariables(p) && Distinct(Variables(p)) && Match(locals, p, e).Some?
    ensures IsMatch(Match(locals, p, e).value)
  {
    var m := Match(locals, p, e).value;
    MatchBinds(locals, p, e);
    KeysAre(m, Variables(p));
    MatchIsNamed(locals, p, e);
  }

  // ----- substitution -----

  function Substitute(values: map<Name, Syntax>, s: Syntax): Syntax {
    match s
    case Pair(a, b) => Pair(Substitute(values, a), Substitute(values, b))
    case Symbol(x) => if x in values then values[x] else s
    case _ => s
  }

  function Symbols(s: Syntax): set<Name> {
    match s
    case Pair(a, b) => Symbols(a) + Symbols(b)
    case Symbol(x) => {x}
    case _ => {}
  }

  lemma {:induction false} SubstituteNothing(values: map<Name, Syntax>, s: Syntax)
    requires Symbols(s) !! values.Keys
    ensures Substitute(values, s) == s
  {
    if s.Pair? {
      SubstituteNothing(values, s.car);
      SubstituteNothing(values, s.cdr);
    }
  }

  /** Literals are replaced by what they mean, and variables by what they stand for. */
  function Values(scope: map<Name, Syntax>, literals: set<Name>, env: map<Name, Tree>): map<Name, Syntax> {
    map x | x in env.Keys + scope.Keys + literals &&
            (IsLiteral(scope, literals, Symbol(x)) || (x in env && env[x].Leaf?)) ::
      if IsLiteral(scope, literals, Symbol(x)) then Denotation(scope, Symbol(x)) else env[x].value
  }

  /** There is no ellipsis in a template. */
  predicate IsPlain(scope: map<Name, Syntax>, ellipsis: Name, s: Syntax) {
    s.Pair? ==>
      && Denotation(scope, s.car) != Symbol(ellipsis)
      && IsPlain(scope, ellipsis, s.car) && IsPlain(scope, ellipsis, s.cdr)
  }

  /** No variable of a template is repeated. */
  ghost predicate StandsAlone(scope: map<Name, Syntax>, literals: set<Name>, env: map<Name, Tree>, s: Syntax) {
    forall x :: x in Symbols(s) && !IsLiteral(scope, literals, Symbol(x)) ==> !IsRepeated(env, x)
  }

  lemma {:induction false} PlainExpands(scope: map<Name, Syntax>, ellipsis: Name, literals: set<Name>,
                                        env: map<Name, Tree>, s: Syntax)
    requires IsPlain(scope, ellipsis, s)
    ensures var r := Expand(env, Compile(scope, ellipsis, literals, s));
            && (r.Some? <==> StandsAlone(scope, literals, env, s))
            && (r.Some? ==> r.value == [Substitute(Values(scope, literals, env), s)])
  {
    match s
    case Pair(a, b) =>
      hide IsLiteral, Values;
      PlainExpands(scope, ellipsis, literals, env, a);
      PlainExpands(scope, ellipsis, literals, env, b);
      var t := Substitute(Values(scope, literals, env), a);
      assert forall d :: Append([t], d) == Pair(t, d) by {
        assert [t][1..] == [];
      }
    case Symbol(x) =>
    case _ =>
  }

  /** A template without ellipsis is filled with what its literals mean and its variables stand for, and nothing else
      in it changes. It fails exactly if there is a repeated variable in it. */
  lemma {:induction false} PlainTemplateIsSubstituted(scope: map<Name, Syntax>, ellipsis: Name, literals: set<Name>,
                                                      m: Matches, s: Syntax)
    requires IsMatch(m) && IsPlain(scope, ellipsis, s)
    ensures var r := Fill(m, Compile(scope, ellipsis, literals, s));
            && (r.Some? <==> StandsAlone(scope, literals, Meanings(m), s))
            && (r.Some? ==> r.value == [Substitute(Values(scope, literals, Meanings(m)), s)])
  {
    FillExpands(m, Compile(scope, ellipsis, literals, s));
    PlainExpands(scope, ellipsis, literals, Meanings(m), s);
  }

  lemma {:induction false} VerbatimExpands(env: map<Name, Tree>, s: Syntax)
    ensures var r := Expand(env, Verbatim(s));
            && (r.Some? <==> StandsAlone(map[], {}, env, s))
            && (r.Some? ==> r.value == [Substitute(Values(map[], {}, env), s)])
  {
    match s
    case Pair(a, b) =>
      hide IsLiteral, Values;
      VerbatimExpands(env, a);
      VerbatimExpands(env, b);
      var t := Substitute(Values(map[], {}, env), a);
      assert forall d :: Append([t], d) == Pair(t, d) by {
        assert [t][1..] == [];
      }
    case Symbol(x) =>
    case _ =>
  }

  /** After an ellipsis at the head of a list, neither literals nor ellipses mean anything. */
  lemma {:induction false} EscapedTemplateIsSubstituted(scope: map<Name, Syntax>, ellipsis: Name, literals: set<Name>,
                                                        m: Matches, dots: Syntax, s: Syntax, rest: Syntax)
    requires IsMatch(m) && Denotation(scope, dots) == Symbol(ellipsis)
    ensures var r := Fill(m, Compile(scope, ellipsis, literals, Pair(dots, Pair(s, rest))));
            && (r.Some? <==> StandsAlone(map[], {}, Meanings(m), s))
            && (r.Some? ==> r.value == [Substitute(Values(map[], {}, Meanings(m)), s)])
  {
    FillExpands(m, Verbatim(s));
    VerbatimExpands(Meanings(m), s);
  }

  // ----- one ellipsis -----

  lemma {:induction false} PlainVariables(scope: map<Name, Syntax>, ellipsis: Name, literals: set<Name>, s: Syntax)
    requires IsPlain(scope, ellipsis, s)
    ensures forall x :: x in Variables(Compile(scope, ellipsis, literals, s)) <==>
                          x in Symbols(s) && !IsLiteral(scope, literals, Symbol(x))
  {
    if s.Pair? {
      PlainVariables(scope, ellipsis, literals, s.car);
      PlainVariables(scope, ellipsis, literals, s.cdr);
    }
  }

  lemma {:induction false} PlainCopies(scope: map<Name, Syntax>, ellipsis: Name, literals: set<Name>,
                                       env: map<Name, Tree>, names: seq<Name>, n: nat, s: Syntax)
    requires IsPlain(scope, ellipsis, s)
    ensures var r := ExpandCopies(env, names, n, Compile(scope, ellipsis, literals, s));
            && (r.Some? <==> forall j: nat :: j < n ==> StandsAlone(scope, literals, Inside(env, names, j), s))
            && (r.Some? ==> r.value == Instances(scope, literals, env, names, n, s))
    decreases n
  {
    hide IsPlain, Compile, StandsAlone, Substitute, Values, Inside, Expand;
    if n > 0 {
      PlainCopies(scope, ellipsis, literals, env, names, n - 1, s);
      PlainExpands(scope, ellipsis, literals, Inside(env, names, n - 1), s);
    }
  }

  // One instance of a template for every repetition.
  function Instances(scope: map<Name, Syntax>, literals: set<Name>, env: map<Name, Tree>, names: seq<Name>, n: nat,
                     s: Syntax): seq<Syntax> {
    seq(n, j requires 0 <= j < n => Substitute(Values(scope, literals, Inside(env, names, j)), s))
  }

  /** A template under an ellipsis is put into the list once for every repetition of its variables, with their values
      in the repetition and those of the other variables. It fails exactly if no variable under the ellipsis is
      repeated, if one is repeated more deeply, or if one after it is repeated. */
  lemma {:induction false} EllipsisTemplateIsSubstituted(
      scope: map<Name, Syntax>, ellipsis: Name, literals: set<Name>, m: Matches, a: Syntax, dots: Syntax, b: Syntax,
      names: seq<Name>)
    requires IsMatch(m) && IsPlain(scope, ellipsis, a) && IsPlain(scope, ellipsis, b)
    requires Denotation(scope, a) != Symbol(ellipsis) && Denotation(scope, dots) == Symbol(ellipsis)
    requires names == Variables(Compile(scope, ellipsis, literals, a))
    ensures forall x :: x in names <==> x in Symbols(a) && !IsLiteral(scope, literals, Symbol(x))
    ensures var env, r := Meanings(m), Fill(m, Compile(scope, ellipsis, literals, Pair(a, Pair(dots, b))));
            && (r.Some? <==>
                  && Copies(env, names).Some? && StandsAlone(scope, literals, env, b)
                  && forall j: nat :: j < Copies(env, names).value ==>
                       StandsAlone(scope, literals, Inside(env, names, j), a))
            && (r.Some? ==>
                  r.value == [Append(Instances(scope, literals, env, names, Copies(env, names).value, a),
                                     Substitute(Values(scope, literals, env), b))])
  {
    hide StandsAlone, Substitute, Values, Inside, Variables, Instances, Copies, IsMatch, Meanings;
    var env := Meanings(m);
    var t, rest := Compile(scope, ellipsis, literals, a), Compile(scope, ellipsis, literals, b);
    assert Compile(scope, ellipsis, literals, Pair(a, Pair(dots, b))) == Branch(Ellipsis(t, names), rest);
    PlainVariables(scope, ellipsis, literals, a);
    FillExpands(m, Branch(Ellipsis(t, names), rest));
    PlainExpands(scope, ellipsis, literals, env, b);
    if Copies(env, names).Some? {
      PlainCopies(scope, ellipsis, literals, env, names, Copies(env, names).value, a);
    }
  }

  // ----- several ellipses -----

  function Dots(dots: seq<Syntax>, rest: Syntax): Syntax {
    if dots == [] then rest else Pair(dots[0], Dots(dots[1..], rest))
  }

  function RepeatTimes(p: Pattern, n: nat): Pattern
    decreases n
  {
    if n == 0 then p else RepeatTimes(Repeat(p), n - 1)
  }

  /** Every ellipsis after an element repeats it once more. */
  lemma {:induction false} EveryEllipsisRepeats(scope: map<Name, Syntax>, ellipsis: Name, literals: set<Name>,
                                                a: Syntax, dots: seq<Syntax>, rest: Syntax)
    requires Denotation(scope, a) != Symbol(ellipsis)
    requires forall d <- dots :: Denotation(scope, d) == Symbol(ellipsis)
    requires rest.Pair? ==> Denotation(scope, rest.car) != Symbol(ellipsis)
    ensures Compile(scope, ellipsis, literals, Pair(a, Dots(dots, rest))) ==
              Branch(RepeatTimes(Compile(scope, ellipsis, literals, a), |dots|),
                     Compile(scope, ellipsis, literals, rest))
  {
    if dots != [] {
      RestRepeats(scope, ellipsis, literals, Repeat(Compile(scope, ellipsis, literals, a)), dots[1..], rest);
    }
  }

  lemma {:induction false} RestRepeats(scope: map<Name, Syntax>, ellipsis: Name, literals: set<Name>, p: Pattern,
                                       dots: seq<Syntax>, rest: Syntax)
    requires forall d <- dots :: Denotation(scope, d) == Symbol(ellipsis)
    requires rest.Pair? ==> Denotation(scope, rest.car) != Symbol(ellipsis)
    ensures CompileRest(scope, ellipsis, literals, p, Dots(dots, rest)) ==
              Branch(RepeatTimes(p, |dots|), Compile(scope, ellipsis, literals, rest))
    decreases |dots|
  {
    if dots != [] {
      RestRepeats(scope, ellipsis, literals, Repeat(p), dots[1..], rest);
    }
  }
}
