/** The rules of a macro in `compile.scm`: the choice among them, and the renaming of what a template introduces. */
module MacroRules {
  import opened Distinctness
  import opened Options
  import opened Macros
  import opened MacroPatterns
  import opened MacroTemplates

  datatype Rule = Rule(pattern: Pattern, template: Pattern)

  /** The expression and the meanings of the names that are new in it, or an error. */
  datatype Expansion = Expanded(e: Syntax, meanings: seq<(Name, Syntax)>) | NoRule | BadTemplate

  // ----- expansion -----

  function Without(names: seq<Name>, excluded: seq<Name>): (r: seq<Name>)
    ensures forall x :: x in r <==> x in names && x !in excluded
  {
    if names == [] then [] else (if names[0] in excluded then [] else [names[0]]) + Without(names[1..], excluded)
  }

  /** The names in a template that its pattern does not bind. */
  function Introduced(r: Rule): seq<Name> {
    Without(Variables(r.template), Variables(r.pattern))
  }

  /** Each of them gets a name that nothing else has. */
  function Renames(names: seq<Name>, made: nat -> Name): (m: Matches)
    ensures |m| == |names|
  {
    seq(|names|, i requires 0 <= i < |names| => (names[i], One(Symbol(made(i)))))
  }

  function ApplyRule(scope: map<Name, Syntax>, r: Rule, m: Matches, made: nat -> Name): Expansion {
    var names := Introduced(r);
    var filled := FillTop(Renames(names, made) + m, r.template);
    if filled.None? then BadTemplate
    else
      Expanded(filled.value,
               seq(|names|, i requires 0 <= i < |names| => (made(i), Denotation(scope, Symbol(names[i])))))
  }

  function Transform(scope: map<Name, Syntax>, locals: map<Name, Syntax>, rules: seq<Rule>, made: nat -> Name,
                     e: Syntax): Expansion
    decreases |rules|
  {
    if rules == [] then NoRule
    else
      var m := Match(locals, rules[0].pattern, e);
      if m.Some? then ApplyRule(scope, rules[0], m.value, made) else Transform(scope, locals, rules[1..], made, e)
  }

  // ----- the choice of a rule -----

  ghost predicate IsFirstFit(locals: map<Name, Syntax>, rules: seq<Rule>, k: nat, e: Syntax) {
    && k < |rules| && Fits(locals, rules[k].pattern, e)
    && forall j :: 0 <= j < k ==> !Fits(locals, rules[j].pattern, e)
  }

  /** The first rule that fits is applied, and without one there is an error. */
  lemma {:induction false} FirstFittingRuleApplies(scope: map<Name, Syntax>, locals: map<Name, Syntax>,
                                                   rules: seq<Rule>, made: nat -> Name, e: Syntax)
    ensures Transform(scope, locals, rules, made, e) == NoRule
            <==> forall k :: 0 <= k < |rules| ==> !Fits(locals, rules[k].pattern, e)
    ensures forall k: nat :: IsFirstFit(locals, rules, k, e) ==>
              && Match(locals, rules[k].pattern, e).Some?
              && Transform(scope, locals, rules, made, e)
                 == ApplyRule(scope, rules[k], Match(locals, rules[k].pattern, e).value, made)
    decreases |rules|
  {
    hide Match, Fits, FillTop, Introduced;
    if rules != [] {
      MatchesIffFits(locals, rules[0].pattern, e);
      FirstFittingRuleApplies(scope, locals, rules[1..], made, e);
      assert forall k :: 1 <= k < |rules| ==> rules[k] == rules[1..][k - 1];
      assert forall k :: 0 <= k < |rules[1..]| ==> rules[1..][k] == rules[k + 1];
      forall k: nat | k > 0 && IsFirstFit(locals, rules, k, e) ensures IsFirstFit(locals, rules[1..], k - 1, e) {
      }
    }
  }

  // ----- hygiene -----

  /** All symbols of what a variable stands for are allowed. */
  predicate IsWithin(b: Bound, allowed: set<Name>)
    decreases b
  {
    match b
    case One(v) => Symbols(v) <= allowed
    case Many(bindings) => forall j :: 0 <= j < |bindings| ==> IsWithin(bindings[j].1, allowed)
  }

  predicate AreWithin(m: Matches, allowed: set<Name>) {
    forall i :: 0 <= i < |m| ==> IsWithin(m[i].1, allowed)
  }

  lemma {:induction false} WithinMore(b: Bound, allowed: set<Name>, more: set<Name>)
    requires IsWithin(b, allowed) && allowed <= more
    ensures IsWithin(b, more)
    decreases b
  {
    if b.Many? {
      forall j | 0 <= j < |b.bindings| ensures IsWithin(b.bindings[j].1, more) {
        WithinMore(b.bindings[j].1, allowed, more);
      }
    }
  }

  lemma {:induction false} PartsOfList(e: Syntax, n: nat)
    requires n <= Length(e)
    ensures Symbols(Tail(e, n)) <= Symbols(e) && forall i :: 0 <= i < n ==> Symbols(Head(e, n)[i]) <= Symbols(e)
  {
    if n > 0 {
      PartsOfList(e.cdr, n - 1);
      forall i | 0 <= i < n ensures Symbols(Head(e, n)[i]) <= Symbols(e) {
        if i > 0 {
          assert Head(e, n)[i] == Head(e.cdr, n - 1)[i - 1];
        }
      }
    }
  }

  lemma {:induction false} AllWithinMore(m: Matches, allowed: set<Name>, more: set<Name>)
    requires AreWithin(m, allowed) && allowed <= more
    ensures AreWithin(m, more)
  {
    forall i | 0 <= i < |m| ensures IsWithin(m[i].1, more) {
      WithinMore(m[i].1, allowed, more);
    }
  }

  /** Variables stand for parts of the expression. */
  lemma {:induction false} MatchIsWithin(locals: map<Name, Syntax>, p: Pattern, e: Syntax, allowed: set<Name>)
    requires Match(locals, p, e).Some? && Symbols(e) <= allowed
    ensures AreWithin(Match(locals, p, e).value, allowed)
    decreases p, 1
  {
    hide Length, PatternLength, Head, Tail, MatchEach, Columns;
    if p.Branch? {
      if p.car.Ellipsis? {
        var n := Length(e) - PatternLength(p.cdr);
        PartsOfList(e, n);
        RowsAreWithin(locals, p.car, Head(e, n), allowed);
        MatchIsWithin(locals, p.cdr, Tail(e, n), allowed);
      } else {
        MatchIsWithin(locals, p.car, e.car, allowed);
        MatchIsWithin(locals, p.cdr, e.cdr, allowed);
      }
    }
  }

  lemma {:induction false} RowsAreWithin(locals: map<Name, Syntax>, p: Pattern, items: seq<Syntax>,
                                         allowed: set<Name>)
    requires p.Ellipsis? && MatchEach(locals, p.element, items).Some?
    requires forall i :: 0 <= i < |items| ==> Symbols(items[i]) <= allowed
    ensures AreWithin(Columns(p.variables, MatchEach(locals, p.element, items).value), allowed)
    decreases p, 0
  {
    hide Match, MatchEach;
    EachMatches(locals, p.element, items);
    var rows: seq<Matches> := MatchEach(locals, p.element, items).value;
    forall j | 0 <= j < |rows| ensures AreWithin(rows[j], allowed) {
      MatchIsWithin(locals, p.element, items[j], allowed);
    }
  }

  /** The symbols that a template puts in as they are. */
  function Given(t: Pattern): set<Name> {
    match t
    case Variable(_) => {}
    case Branch(a, b) => Given(a) + Given(b)
    case Ellipsis(element, _) => Given(element)
    case Literal(d) => Symbols(d)
    case Constant(v) => Symbols(v)
  }

  predicate ElementsAreWithin(es: seq<Syntax>, allowed: set<Name>) {
    forall i :: 0 <= i < |es| ==> Symbols(es[i]) <= allowed
  }

  lemma {:induction false} AppendIsWithin(es: seq<Syntax>, rest: Syntax, allowed: set<Name>)
    requires ElementsAreWithin(es, allowed) && Symbols(rest) <= allowed
    ensures Symbols(Append(es, rest)) <= allowed
  {
    if es != [] {
      AppendIsWithin(es[1..], rest, allowed);
    }
  }

  ghost predicate IsBound(m: Matches, names: seq<Name>) {
    forall x <- names :: Lookup(m, x).Some?
  }

  /** If all of its variables are bound, a template is filled with what they stand for and with what it gives. */
  lemma {:induction false} FillIsWithin(m: Matches, t: Pattern, allowed: set<Name>)
    requires IsMatch(m) && KnowsVariables(t) && IsBound(m, Variables(t)) && AreWithin(m, allowed) && Given(t) <= allowed
    ensures Fill(m, t).Some? ==> ElementsAreWithin(Fill(m, t).value, allowed)
    decreases t, 0
  {
    hide IsMatch, FillEach;
    match t
    case Variable(x) =>
      assert x in Variables(t);
      LookupFinds(m, x);
    case Branch(a, b) =>
      assert forall x :: x in Variables(a) || x in Variables(b) ==> x in Variables(t);
      FillIsWithin(m, a, allowed);
      FillIsWithin(m, b, allowed);
      if Fill(m, t).Some? {
        AppendIsWithin(Fill(m, a).value, Fill(m, b).value[0], allowed);
      }
    case Ellipsis(element, names) =>
      var columns, single := Repeated(Only(m, names)), Single(Only(m, names));
      PartsAre(m, names);
      PartsAreWithin(m, names, columns, single, allowed);
      if columns != [] {
        CopiesAreWithin(m, names, columns, single, element, 0, allowed);
      }
    case _ =>
  }

  lemma {:induction false} PartsAreWithin(m: Matches, names: seq<Name>, columns: Matches, single: Matches,
                                          allowed: set<Name>)
    requires AreParts(m, names, columns, single) && AreWithin(m, allowed)
    ensures AreWithin(columns, allowed) && AreWithin(single, allowed)
  {
    hide IsMatch, Lookup;
    forall i | 0 <= i < |columns| ensures IsWithin(columns[i].1, allowed) {
      assert columns[i] in columns;
    }
    forall i | 0 <= i < |single| ensures IsWithin(single[i].1, allowed) {
      assert single[i] in single;
    }
  }

  lemma {:induction false} CopiesAreWithin(m: Matches, names: seq<Name>, columns: Matches, single: Matches, t: Pattern,
                                           j: nat, allowed: set<Name>)
    requires AreParts(m, names, columns, single) && columns != [] && (forall b <- columns :: b.1.Many?)
    requires KnowsVariables(t) && names == Variables(t) && IsBound(m, names) && Given(t) <= allowed
    requires AreWithin(columns, allowed) && AreWithin(single, allowed)
    ensures var r := FillEach(columns, single, j, t); r.Some? ==> ElementsAreWithin(r.value, allowed)
    decreases t, 1 + if j < Rows(columns) then Rows(columns) - j else 0
  {
    hide AreParts, IsMatch, Rows, Fill;
    if j < Rows(columns) {
      forall b | b in columns ensures j < |b.1.bindings| {
        var i :| 0 <= i < |columns| && columns[i] == b;
        RowsAreShortest(columns, i);
      }
      RowIsMatch(m, names, columns, single, j);
      RowIsBound(m, names, columns, single, j);
      RowIsWithin(columns, single, j, allowed);
      FillIsWithin(Row(columns, j) + single, t, allowed);
      CopiesAreWithin(m, names, columns, single, t, j + 1, allowed);
    }
  }

  lemma {:induction false} RowIsBound(m: Matches, names: seq<Name>, columns: Matches, single: Matches, j: nat)
    requires AreParts(m, names, columns, single) && IsBound(m, names)
    requires forall b <- columns :: b.1.Many? && j < |b.1.bindings|
    ensures IsBound(Row(columns, j) + single, names)
  {
    RowIsMatch(m, names, columns, single, j);
    hide IsMatch, Lookup, Row;
    forall x | x in names ensures Lookup(Row(columns, j) + single, x).Some? {
      LookupAppend(Row(columns, j), single, x);
      LookupRow(columns, j, x);
    }
  }

  lemma {:induction false} RowIsWithin(columns: Matches, single: Matches, j: nat, allowed: set<Name>)
    requires forall b <- columns :: b.1.Many? && j < |b.1.bindings|
    requires AreWithin(columns, allowed) && AreWithin(single, allowed)
    ensures AreWithin(Row(columns, j) + single, allowed)
  {
    var row := Row(columns, j);
    forall i | 0 <= i < |row| ensures IsWithin(row[i].1, allowed) {
      assert columns[i] in columns && IsWithin(columns[i].1, allowed);
    }
  }

  lemma {:induction false} RenamedIsMatch(names: seq<Name>, made: nat -> Name, m: Matches)
    requires IsMatch(m) && forall i :: 0 <= i < |m| ==> m[i].0 !in names
    ensures IsMatch(Renames(names, made) + m)
  {
  }

  lemma {:induction false} KeyIsFound(m: Matches, i: nat)
    requires i < |m|
    ensures Lookup(m, m[i].0).Some?
    decreases |m|
  {
    if m[0].0 != m[i].0 {
      KeyIsFound(m[1..], i - 1);
    }
  }

  lemma {:induction false} TemplateIsBound(r: Rule, made: nat -> Name, m: Matches)
    requires Keys(m) == Variables(r.pattern)
    ensures IsBound(Renames(Introduced(r), made) + m, Variables(r.template))
  {
    var names := Introduced(r);
    var renames := Renames(names, made);
    forall x | x in Variables(r.template) ensures Lookup(renames + m, x).Some? {
      LookupAppend(renames, m, x);
      if x in Variables(r.pattern) {
        var i :| 0 <= i < |Keys(m)| && Keys(m)[i] == x;
        KeyIsFound(m, i);
      } else {
        var i :| 0 <= i < |names| && names[i] == x;
        KeyIsFound(renames, i);
      }
    }
  }

  // The names that an expansion makes up.
  function FreshNames(r: Rule, made: nat -> Name): set<Name> {
    set i | 0 <= i < |Introduced(r)| :: made(i)
  }

  /** Every symbol of an expansion is in the expression that is expanded, or new, or given by the template: no name that
      a template introduces can be captured where the macro is used. */
  lemma {:induction false} ExpansionIsHygienic(scope: map<Name, Syntax>, locals: map<Name, Syntax>, r: Rule,
                                               made: nat -> Name, e: Syntax)
    requires KnowsVariables(r.pattern) && KnowsVariables(r.template) && Distinct(Variables(r.pattern))
    requires Match(locals, r.pattern, e).Some?
    ensures var x := ApplyRule(scope, r, Match(locals, r.pattern, e).value, made);
            x.Expanded? ==> Symbols(x.e) <= Symbols(e) + FreshNames(r, made) + Given(r.template)
  {
    hide Match, Fill, IsMatch, Introduced, Given;
    var m, names, allowed := Match(locals, r.pattern, e).value, Introduced(r),
                             Symbols(e) + FreshNames(r, made) + Given(r.template);
    MatchBinds(locals, r.pattern, e);
    MatchIsMatch(locals, r.pattern, e);
    KeysAre(m, Variables(r.pattern));
    IntroducedAreOther(r);
    RenamedIsMatch(names, made, m);
    TemplateIsBound(r, made, m);
    MatchIsWithin(locals, r.pattern, e, allowed);
    FillIsWithin(Renames(names, made) + m, r.template, allowed);
  }

  lemma {:induction false} IntroducedAreOther(r: Rule)
    ensures forall x :: x in Introduced(r) ==> x !in Variables(r.pattern)
  {
  }

  /** What a compiled template gives are the meanings of literals. */
  lemma {:induction false} CompiledGives(scope: map<Name, Syntax>, ellipsis: Name, literals: set<Name>, s: Syntax)
    ensures Given(Compile(scope, ellipsis, literals, s)) <= literals
    decreases s, 0
  {
    if s.Pair? {
      if Denotation(scope, s.car) == Symbol(ellipsis) {
        if s.cdr.Pair? {
          VerbatimGives(s.cdr.car);
        }
      } else {
        CompiledGives(scope, ellipsis, literals, s.car);
        if s.cdr.Pair? && Denotation(scope, s.cdr.car) == Symbol(ellipsis) {
          RestGives(scope, ellipsis, literals, Repeat(Compile(scope, ellipsis, literals, s.car)), s.cdr.cdr);
        } else {
          CompiledGives(scope, ellipsis, literals, s.cdr);
        }
      }
    }
  }

  lemma {:induction false} RestGives(scope: map<Name, Syntax>, ellipsis: Name, literals: set<Name>, first: Pattern,
                                     rest: Syntax)
    requires Given(first) <= literals
    ensures Given(CompileRest(scope, ellipsis, literals, first, rest)) <= literals
    decreases rest, 1
  {
    if rest.Pair? && Denotation(scope, rest.car) == Symbol(ellipsis) {
      RestGives(scope, ellipsis, literals, Repeat(first), rest.cdr);
    } else {
      CompiledGives(scope, ellipsis, literals, rest);
    }
  }

  lemma {:induction false} VerbatimGives(s: Syntax)
    ensures Given(Verbatim(s)) == {}
  {
    if s.Pair? {
      VerbatimGives(s.car);
      VerbatimGives(s.cdr);
    }
  }
}
