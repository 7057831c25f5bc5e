/** What patterns of `syntax-rules` match: matching in `compile.scm` against a relation that splits lists freely. */
module MacroPatterns {
  import opened Options
  import opened Macros

  // ----- what fits -----

  /** A list has as many elements as a pattern. */
  predicate AsLong(p: Pattern, e: Syntax) {
    if p.Branch? then e.Pair? && AsLong(p.cdr, e.cdr) else !e.Pair?
  }

  /** An expression is an instance of a pattern. An ellipsis stands for any number of elements, as long as there are
      as many elements left as there are patterns. */
  ghost predicate Fits(locals: map<Name, Syntax>, p: Pattern, e: Syntax)
    decreases p
  {
    match p
    case Variable(_) => true
    case Branch(a, b) =>
      if a.Ellipsis? then
        exists items: seq<Syntax>, rest: Syntax ::
          && Append(items, rest) == e && AsLong(b, rest) && Fits(locals, b, rest)
          && forall i :: 0 <= i < |items| ==> Fits(locals, a.element, items[i])
      else e.Pair? && Fits(locals, a, e.car) && Fits(locals, b, e.cdr)
    case Literal(d) => Denotation(locals, e) == d
    case Constant(v) => e == v
    case Ellipsis(_, _) => false
  }

  // Every variable with its values in the rows.
  predicate AreColumns(names: seq<Name>, rows: seq<Matches>, columns: Matches) {
    && |columns| == |names| && (forall j :: 0 <= j < |rows| ==> |rows[j]| == |names|)
    && forall i :: 0 <= i < |names| ==>
         && columns[i].0 == names[i] && columns[i].1.Many? && |columns[i].1.bindings| == |rows|
         && forall j :: 0 <= j < |rows| ==> columns[i].1.bindings[j] == rows[j][i]
  }

  /** What the variables of a pattern stand for in an instance of it. */
  ghost predicate Binds(locals: map<Name, Syntax>, p: Pattern, e: Syntax, m: Matches)
    decreases p, 0
  {
    match p
    case Variable(x) => m == [(x, One(e))]
    case Branch(a, b) =>
      if a.Ellipsis? then
        var n := |a.variables|;
        && n <= |m|
        && exists items: seq<Syntax>, rest: Syntax, rows: seq<Matches> ::
             && Append(items, rest) == e && AsLong(b, rest) && Binds(locals, b, rest, m[n..])
             && AreColumns(a.variables, rows, m[..n]) && BindsEach(locals, a.element, items, rows)
      else
        && e.Pair?
        && exists k :: 0 <= k <= |m| && Binds(locals, a, e.car, m[..k]) && Binds(locals, b, e.cdr, m[k..])
    case Literal(d) => Denotation(locals, e) == d && m == []
    case Constant(v) => e == v && m == []
    case Ellipsis(_, _) => false
  }

  ghost predicate BindsEach(locals: map<Name, Syntax>, p: Pattern, items: seq<Syntax>, rows: seq<Matches>)
    decreases p, 1
  {
    |rows| == |items| && forall i :: 0 <= i < |items| ==> Binds(locals, p, items[i], rows[i])
  }

  // ----- lists -----

  lemma {:induction false} AsLongIsLength(p: Pattern, e: Syntax)
    ensures AsLong(p, e) <==> PatternLength(p) == Length(e)
    decreases p
  {
    if p.Branch? && e.Pair? {
      AsLongIsLength(p.cdr, e.cdr);
    }
  }

  lemma {:induction false} LengthOfTail(e: Syntax, n: nat)
    requires n <= Length(e)
    ensures Length(Tail(e, n)) == Length(e) - n
  {
    if n > 0 {
      LengthOfTail(e.cdr, n - 1);
    }
  }

  lemma {:induction false} SplitAppend(items: seq<Syntax>, rest: Syntax)
    ensures Length(Append(items, rest)) == |items| + Length(rest)
    ensures Head(Append(items, rest), |items|) == items && Tail(Append(items, rest), |items|) == rest
  {
    if items != [] {
      SplitAppend(items[1..], rest);
      assert items == [items[0]] + items[1..];
    }
  }

  lemma {:induction false} SplitOf(p: Pattern, e: Syntax) returns (items: seq<Syntax>, rest: Syntax)
    requires PatternLength(p) <= Length(e)
    ensures Append(items, rest) == e && AsLong(p, rest)
  {
    var n := Length(e) - PatternLength(p);
    AppendHeadTail(e, n);
    LengthOfTail(e, n);
    AsLongIsLength(p, Tail(e, n));
    return Head(e, n), Tail(e, n);
  }

  /** However a list is split, as long as the rest of it is as long as the rest of the pattern. */
  lemma {:induction false} MatchOfList(locals: map<Name, Syntax>, p: Pattern, items: seq<Syntax>, rest: Syntax)
    requires p.Branch? && p.car.Ellipsis? && AsLong(p.cdr, rest)
    ensures var rows, others := MatchEach(locals, p.car.element, items), Match(locals, p.cdr, rest);
            Match(locals, p, Append(items, rest)) ==
              if rows.Some? && others.Some? then Some(Columns(p.car.variables, rows.value) + others.value) else None
  {
    hide Length, PatternLength, Head, Tail, Append, AsLong, MatchEach, Columns;
    SplitAppend(items, rest);
    AsLongIsLength(p.cdr, rest);
  }

  // ----- matching succeeds exactly on what fits -----

  lemma {:induction false} EachMatches(locals: map<Name, Syntax>, p: Pattern, items: seq<Syntax>)
    ensures MatchEach(locals, p, items).Some? <==>
              forall i :: 0 <= i < |items| ==> Match(locals, p, items[i]).Some?
    ensures MatchEach(locals, p, items).Some? ==>
              && |MatchEach(locals, p, items).value| == |items|
              && forall i :: 0 <= i < |items| ==>
                   Match(locals, p, items[i]) == Some(MatchEach(locals, p, items).value[i])
    decreases |items|
  {
    hide Match;
    if items != [] {
      EachMatches(locals, p, items[1..]);
      assert forall i :: 1 <= i < |items| ==> items[i] == items[1..][i - 1];
      assert forall i :: 0 <= i < |items[1..]| ==> items[1..][i] == items[i + 1];
    }
  }

  /** An expression matches a pattern exactly if it fits. */
  lemma {:induction false} MatchesIffFits(locals: map<Name, Syntax>, p: Pattern, e: Syntax)
    ensures Match(locals, p, e).Some? <==> Fits(locals, p, e)
    decreases p, 1
  {
    hide Length, PatternLength, Head, Tail, Append, AsLong, MatchEach;
    if p.Branch? {
      if p.car.Ellipsis? {
        if Match(locals, p, e).Some? {
          MatchedListFits(locals, p, e);
        }
        if Fits(locals, p, e) {
          FittingListMatches(locals, p, e);
        }
      } else if e.Pair? {
        MatchesIffFits(locals, p.car, e.car);
        MatchesIffFits(locals, p.cdr, e.cdr);
      }
    }
  }

  lemma {:induction false} MatchedListFits(locals: map<Name, Syntax>, p: Pattern, e: Syntax)
    requires p.Branch? && p.car.Ellipsis? && Match(locals, p, e).Some?
    ensures Fits(locals, p, e)
    decreases p, 0
  {
    hide Length, PatternLength, Head, Tail, Append, AsLong, MatchEach, Columns;
    var items, rest := SplitOf(p.cdr, e);
    MatchOfList(locals, p, items, rest);
    EachMatches(locals, p.car.element, items);
    MatchesIffFits(locals, p.cdr, rest);
    forall i | 0 <= i < |items| ensures Fits(locals, p.car.element, items[i]) {
      MatchesIffFits(locals, p.car.element, items[i]);
    }
  }

  lemma {:induction false} FittingListMatches(locals: map<Name, Syntax>, p: Pattern, e: Syntax)
    requires p.Branch? && p.car.Ellipsis? && Fits(locals, p, e)
    ensures Match(locals, p, e).Some?
    decreases p, 0
  {
    hide Length, PatternLength, Head, Tail, Append, AsLong, MatchEach, Columns;
    var items: seq<Syntax>, rest: Syntax :|
      && Append(items, rest) == e && AsLong(p.cdr, rest) && Fits(locals, p.cdr, rest)
      && forall i :: 0 <= i < |items| ==> Fits(locals, p.car.element, items[i]);
    MatchOfList(locals, p, items, rest);
    MatchesIffFits(locals, p.cdr, rest);
    forall i | 0 <= i < |items| ensures Match(locals, p.car.element, items[i]).Some? {
      MatchesIffFits(locals, p.car.element, items[i]);
    }
    EachMatches(locals, p.car.element, items);
  }

  // ----- the bindings of a match -----

  lemma {:induction false} ColumnsAre(names: seq<Name>, rows: seq<Matches>)
    requires forall j :: 0 <= j < |rows| ==> Keys(rows[j]) == names
    ensures AreColumns(names, rows, Columns(names, rows))
  {
    RowsAreLong(names, rows);
    forall j | 0 <= j < |rows| ensures |rows[j]| == |names| {
      KeysAre(rows[j], names);
    }
  }

  lemma {:induction false} ColumnsAreOnly(names: seq<Name>, rows: seq<Matches>, a: Matches, b: Matches)
    requires AreColumns(names, rows, a) && AreColumns(names, rows, b)
    ensures a == b
  {
    forall i | 0 <= i < |names| ensures a[i] == b[i] {
      assert a[i].1.bindings == b[i].1.bindings;
    }
  }

  lemma {:induction false} EachBinds(locals: map<Name, Syntax>, p: Pattern, names: seq<Name>, items: seq<Syntax>)
    requires KnowsVariables(p) && names == Variables(p) && MatchEach(locals, p, items).Some?
    ensures var rows := MatchEach(locals, p, items).value;
            |rows| == |items| && AreColumns(names, rows, Columns(names, rows))
  {
    hide Columns, AreColumns;
    MatchEachBinds(locals, p, items);
    ColumnsAre(names, MatchEach(locals, p, items).value);
  }

  /** A match is what the variables stand for, and there is nothing else they could stand for. */
  lemma {:induction false} MatchIffBinds(locals: map<Name, Syntax>, p: Pattern, e: Syntax, m: Matches)
    requires KnowsVariables(p)
    ensures Match(locals, p, e) == Some(m) <==> Binds(locals, p, e, m)
    decreases p, 1
  {
    hide Length, PatternLength, Head, Tail, Append, AsLong, MatchEach, Columns, AreColumns;
    if p.Branch? {
      if p.car.Ellipsis? {
        if Match(locals, p, e) == Some(m) {
          ListMatchBinds(locals, p, e, m);
        }
        if Binds(locals, p, e, m) {
          ListBindingMatches(locals, p, e, m);
        }
      } else if e.Pair? {
        PairMatchIffBinds(locals, p, e, m);
      }
    }
  }

  lemma {:induction false} BoundPair(locals: map<Name, Syntax>, p: Pattern, e: Syntax, m: Matches)
      returns (car: Matches, cdr: Matches)
    requires p.Branch? && !p.car.Ellipsis? && Binds(locals, p, e, m)
    ensures e.Pair? && m == car + cdr && Binds(locals, p.car, e.car, car) && Binds(locals, p.cdr, e.cdr, cdr)
  {
    var k :| 0 <= k <= |m| && Binds(locals, p.car, e.car, m[..k]) && Binds(locals, p.cdr, e.cdr, m[k..]);
    return m[..k], m[k..];
  }

  lemma {:induction false} BindPair(locals: map<Name, Syntax>, p: Pattern, e: Syntax, car: Matches, cdr: Matches)
    requires p.Branch? && !p.car.Ellipsis? && e.Pair?
    requires Binds(locals, p.car, e.car, car) && Binds(locals, p.cdr, e.cdr, cdr)
    ensures Binds(locals, p, e, car + cdr)
  {
    assert (car + cdr)[..|car|] == car && (car + cdr)[|car|..] == cdr;
  }

  lemma {:induction false} PairMatchIffBinds(locals: map<Name, Syntax>, p: Pattern, e: Syntax, m: Matches)
    requires p.Branch? && !p.car.Ellipsis? && e.Pair? && KnowsVariables(p)
    ensures Match(locals, p, e) == Some(m) <==> Binds(locals, p, e, m)
    decreases p, 0
  {
    hide Binds, Variables;
    if Match(locals, p, e) == Some(m) {
      var car, cdr := Match(locals, p.car, e.car).value, Match(locals, p.cdr, e.cdr).value;
      MatchIffBinds(locals, p.car, e.car, car);
      MatchIffBinds(locals, p.cdr, e.cdr, cdr);
      BindPair(locals, p, e, car, cdr);
    }
    if Binds(locals, p, e, m) {
      var car, cdr := BoundPair(locals, p, e, m);
      MatchIffBinds(locals, p.car, e.car, car);
      MatchIffBinds(locals, p.cdr, e.cdr, cdr);
    }
  }

  lemma {:induction false} BindList(locals: map<Name, Syntax>, p: Pattern, items: seq<Syntax>, rest: Syntax,
                                    rows: seq<Matches>, columns: Matches, others: Matches)
    requires p.Branch? && p.car.Ellipsis? && AsLong(p.cdr, rest) && BindsEach(locals, p.car.element, items, rows)
    requires AreColumns(p.car.variables, rows, columns) && Binds(locals, p.cdr, rest, others)
    ensures Binds(locals, p, Append(items, rest), columns + others)
  {
    hide Append, AsLong, BindsEach;
    var k := |columns|;
    assert (columns + others)[..k] == columns && (columns + others)[k..] == others;
  }

  lemma {:induction false} ListMatchBinds(locals: map<Name, Syntax>, p: Pattern, e: Syntax, m: Matches)
    requires p.Branch? && p.car.Ellipsis? && KnowsVariables(p) && Match(locals, p, e) == Some(m)
    ensures Binds(locals, p, e, m)
    decreases p, 0, 1
  {
    hide Length, Head, Tail, Append, AsLong, MatchEach, Columns, AreColumns, Variables, Binds;
    var items, rest := SplitOf(p.cdr, e);
    MatchOfList(locals, p, items, rest);
    var rows, others := MatchEach(locals, p.car.element, items).value, Match(locals, p.cdr, rest).value;
    MatchIffBinds(locals, p.cdr, rest, others);
    MatchedItemsBind(locals, p.car.element, items, rows);
    EachBinds(locals, p.car.element, p.car.variables, items);
    BindList(locals, p, items, rest, rows, Columns(p.car.variables, rows), others);
  }

  lemma {:induction false} MatchedItemsBind(locals: map<Name, Syntax>, p: Pattern, items: seq<Syntax>,
                                            rows: seq<Matches>)
    requires KnowsVariables(p) && MatchEach(locals, p, items) == Some(rows)
    ensures BindsEach(locals, p, items, rows)
    decreases p, 2
  {
    hide MatchEach, Match, Binds;
    EachMatches(locals, p, items);
    forall i | 0 <= i < |items| ensures Binds(locals, p, items[i], rows[i]) {
      MatchIffBinds(locals, p, items[i], rows[i]);
    }
  }

  lemma {:induction false} BoundList(locals: map<Name, Syntax>, p: Pattern, e: Syntax, m: Matches)
      returns (items: seq<Syntax>, rest: Syntax, rows: seq<Matches>, columns: Matches, others: Matches)
    requires p.Branch? && p.car.Ellipsis? && Binds(locals, p, e, m)
    ensures Append(items, rest) == e && AsLong(p.cdr, rest) && m == columns + others
    ensures AreColumns(p.car.variables, rows, columns) && Binds(locals, p.cdr, rest, others)
    ensures BindsEach(locals, p.car.element, items, rows)
  {
    hide Append, AsLong, AreColumns, BindsEach;
    var n := |p.car.variables|;
    items, rest, rows :|
      && Append(items, rest) == e && AsLong(p.cdr, rest) && Binds(locals, p.cdr, rest, m[n..])
      && AreColumns(p.car.variables, rows, m[..n]) && BindsEach(locals, p.car.element, items, rows);
    columns, others := m[..n], m[n..];
  }

  lemma {:induction false} ListBindingMatches(locals: map<Name, Syntax>, p: Pattern, e: Syntax, m: Matches)
    requires p.Branch? && p.car.Ellipsis? && KnowsVariables(p) && Binds(locals, p, e, m)
    ensures Match(locals, p, e) == Some(m)
    decreases p, 0, 1
  {
    hide Append, AsLong, MatchEach, Match, Columns, AreColumns, Variables, Binds;
    var items, rest, rows, columns, others := BoundList(locals, p, e, m);
    MatchOfList(locals, p, items, rest);
    MatchIffBinds(locals, p.cdr, rest, others);
    BoundItemsMatch(locals, p.car, items, rows, columns);
  }

  lemma {:induction false} BoundItemsMatch(locals: map<Name, Syntax>, p: Pattern, items: seq<Syntax>,
                                           rows: seq<Matches>, columns: Matches)
    requires p.Ellipsis? && KnowsVariables(p) && AreColumns(p.variables, rows, columns)
    requires BindsEach(locals, p.element, items, rows)
    ensures MatchEach(locals, p.element, items) == Some(rows) && Columns(p.variables, rows) == columns
    decreases p, 0, 0
  {
    hide MatchEach, Match, Columns, AreColumns, Variables, Binds;
    forall i | 0 <= i < |items| ensures Match(locals, p.element, items[i]) == Some(rows[i]) {
      MatchIffBinds(locals, p.element, items[i], rows[i]);
    }
    EachMatches(locals, p.element, items);
    assert MatchEach(locals, p.element, items).value == rows;
    EachBinds(locals, p.element, p.variables, items);
    ColumnsAreOnly(p.variables, rows, columns, Columns(p.variables, rows));
  }
}
