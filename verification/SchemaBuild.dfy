/** What changes without drops make of a table: the columns that are there only have attributes set,
    and what is added to them does not depend on them. */
module SchemaBuild {
  import opened SchemaTable
  import opened SchemaFile

  function NamesOf(cols: seq<Column>): set<string> {
    set c | c in cols :: c.name
  }

  lemma NamesOfHas(cols: seq<Column>, name: string)
    ensures name in NamesOf(cols) <==> Has(cols, name)
  {
    if c :| c in cols && c.name == name { var i :| 0 <= i < |cols| && cols[i] == c; }
  }

  // ----- changes kind by kind -----

  lemma {:induction false} OfConcat(a: seq<Change>, b: seq<Change>, kind: nat)
    ensures Of(a + b, kind) == Of(a, kind) + Of(b, kind)
    decreases |b|
  {
    if b == [] {
      assert a + b == a;
    } else {
      assert (a + b)[..|a + b| - 1] == a + b[..|b| - 1];
      OfConcat(a, b[..|b| - 1], kind);
    }
  }

  lemma OfNext(init: seq<Change>, last: Change, kind: nat)
    ensures Of(init + [last], kind) == if Kind(last) == kind then Of(init, kind) + [last] else Of(init, kind)
  {
    assert (init + [last])[..|init|] == init;
    assert Of(init, kind) + [] == Of(init, kind);
  }

  lemma {:induction false} OfSame(parts: seq<Change>, kind: nat)
    requires forall c :: c in parts ==> Kind(c) == kind
    ensures Of(parts, kind) == parts
  {
    if parts == [] {
    } else {
      hide Of, Kind;
      var init, last := parts[..|parts| - 1], parts[|parts| - 1];
      assert parts == init + [last];
      OfSame(init, kind);
      OfNext(init, last, kind);
    }
  }

  lemma {:induction false} OfOther(parts: seq<Change>, kind: nat)
    requires forall c :: c in parts ==> Kind(c) != kind
    ensures Of(parts, kind) == []
  {
    if parts == [] {
    } else {
      hide Of, Kind;
      var init, last := parts[..|parts| - 1], parts[|parts| - 1];
      assert parts == init + [last];
      OfOther(init, kind);
      OfNext(init, last, kind);
    }
  }

  lemma OfOf(parts: seq<Change>, of: nat, kind: nat)
    ensures Of(Of(parts, of), kind) == if of == kind then Of(parts, kind) else []
  {
    if of == kind { OfSame(Of(parts, of), kind); } else { OfOther(Of(parts, of), kind); }
  }

  /** Reading an ALTER kind by kind keeps what each kind sets, in order. */
  lemma ReadOf(parts: seq<Change>, kind: nat)
    requires 1 <= kind <= 3
    ensures Of(Read(parts), kind) == Of(parts, kind)
  {
    hide Of;
    var adds, nulls, defaults, values := Of(parts, 0), Of(parts, 1), Of(parts, 2), Of(parts, 3);
    OfConcat(adds, Sets(parts), kind);
    OfConcat(nulls + defaults, values, kind);
    OfConcat(nulls, defaults, kind);
    OfOf(parts, 0, kind);
    OfOf(parts, 1, kind);
    OfOf(parts, 2, kind);
    OfOf(parts, 3, kind);
  }

  lemma StatementOf(s: Statement, kind: nat)
    requires 1 <= kind <= 3
    ensures Of(Changes(s), kind) == if s.Alter? then Of(s.parts, kind) else []
  {
    hide Of;
    if !s.Alter? { OfOther(Changes(s), kind); }
  }

  lemma {:induction false} FileOf(file: seq<Statement>, n: nat, kind: nat)
    requires n <= |file| && 1 <= kind <= 3
    ensures Of(Flat(file, n), kind) == Of(Altered(file, n), kind)
  {
    hide Of, Read, Changes;
    if n == 0 {
    } else {
      FileOf(file, n - 1, kind);
      OfConcat(Flat(file, n - 1), Changes(file[n - 1]), kind);
      StatementOf(file[n - 1], kind);
      if file[n - 1].Alter? {
        OfConcat(Altered(file, n - 1), Read(file[n - 1].parts), kind);
        ReadOf(file[n - 1].parts, kind);
      } else {
        assert Altered(file, n - 1) + [] == Altered(file, n - 1);
      }
    }
  }

  lemma {:induction false} CreatedOf(file: seq<Statement>, n: nat, kind: nat)
    requires n <= |file| && kind != 0
    ensures Of(Created(file, n), kind) == []
  {
    hide Of;
    if n == 0 {
      OfOther([], kind);
    } else {
      CreatedOf(file, n - 1, kind);
      if file[n - 1].Create? {
        OfConcat(Created(file, n - 1), Added(file[n - 1].columns), kind);
        OfOther(Added(file[n - 1].columns), kind);
      } else {
        assert Created(file, n - 1) + [] == Created(file, n - 1);
      }
    }
  }

  lemma {:induction false} DropsOf(changes: seq<Change>, kind: nat)
    requires kind != 4
    ensures Of(Drops(changes, false), kind) == Of(changes, kind)
  {
    if changes == [] {
    } else {
      hide Drops;
      var init, last := changes[..|changes| - 1], changes[|changes| - 1];
      assert changes == init + [last];
      DropsOf(init, kind);
      LastChange([], init, last);
      OfConcat(Drops(init, false), [last], kind);
      OfConcat(init, [last], kind);
      if last.Drop? { OfOther([last], kind); }
    }
  }

  /** In the written and in the read order each attribute is set the same way. */
  lemma SameSets(file: seq<Statement>)
    ensures Sets(Drops(Flat(file, |file|), false)) == Sets(Created(file, |file|) + Altered(file, |file|))
  {
    hide Of, Drops, Flat, Created, Altered;
    var n := |file|;
    forall kind: nat | 1 <= kind <= 3
      ensures Of(Drops(Flat(file, n), false), kind) == Of(Created(file, n) + Altered(file, n), kind)
    {
      DropsOf(Flat(file, n), kind);
      FileOf(file, n, kind);
      OfConcat(Created(file, n), Altered(file, n), kind);
      CreatedOf(file, n, kind);
    }
  }

  // ----- setting attributes -----

  lemma SetsCommute(cols: seq<Column>, a: Change, b: Change)
    requires IsSet(a) && IsSet(b) && Kind(a) != Kind(b)
    ensures Apply(Apply(cols, a), b) == Apply(Apply(cols, b), a)
  {}

  lemma {:induction false} SetPast(cols: seq<Column>, a: Change, rest: seq<Change>)
    requires IsSet(a) && forall c :: c in rest ==> IsSet(c) && Kind(c) != Kind(a)
    ensures ApplyAll(Apply(cols, a), rest) == Apply(ApplyAll(cols, rest), a)
  {
    hide Apply;
    if rest == [] {
    } else {
      var init, last := rest[..|rest| - 1], rest[|rest| - 1];
      assert rest == init + [last];
      SetPast(cols, a, init);
      SetsCommute(ApplyAll(cols, init), a, last);
    }
  }

  lemma SetsInThree(cols: seq<Column>, parts: seq<Change>)
    ensures ApplyAll(cols, Sets(parts)) == ApplyAll(ApplyAll(ApplyAll(cols, Of(parts, 1)), Of(parts, 2)), Of(parts, 3))
  {
    hide Of, ApplyAll;
    ApplyAllConcat(cols, Of(parts, 1), Of(parts, 2));
    ApplyAllConcat(cols, Of(parts, 1) + Of(parts, 2), Of(parts, 3));
  }

  /** A further setting may come last among all of them. */
  lemma SetLast(cols: seq<Column>, init: seq<Change>, last: Change)
    requires IsSet(last)
    ensures ApplyAll(cols, Sets(init + [last])) == Apply(ApplyAll(cols, Sets(init)), last)
  {
    hide Of, Sets, Apply, ApplyAll;
    SetsInThree(cols, init);
    SetsInThree(cols, init + [last]);
    OfNext(init, last, 1);
    OfNext(init, last, 2);
    OfNext(init, last, 3);
    var nulls, defaults, values := Of(init, 1), Of(init, 2), Of(init, 3);
    var one := ApplyAll(cols, nulls);
    var two := ApplyAll(one, defaults);
    match Kind(last)
    case 1 =>
      LastChange(cols, nulls, last);
      SetPast(one, last, defaults);
      SetPast(two, last, values);
    case 2 =>
      LastChange(one, defaults, last);
      SetPast(two, last, values);
    case _ =>
      LastChange(two, values, last);
  }

  lemma AddSetsNothing(init: seq<Change>, last: Change)
    requires last.Add?
    ensures Sets(init + [last]) == Sets(init)
  {
    hide Of;
    OfNext(init, last, 1);
    OfNext(init, last, 2);
    OfNext(init, last, 3);
  }

  lemma SetConcat(a: seq<Column>, b: seq<Column>, change: Change)
    requires IsSet(change)
    ensures Apply(a + b, change) == Apply(a, change) + Apply(b, change)
  {}

  lemma {:induction false} SetKeepsNames(cols: seq<Column>, sets: seq<Change>, name: string)
    requires forall c :: c in sets ==> IsSet(c)
    ensures Has(ApplyAll(cols, sets), name) <==> Has(cols, name)
  {
    if sets == [] {
    } else {
      hide Has, Apply;
      var init, last := sets[..|sets| - 1], sets[|sets| - 1];
      assert sets == init + [last] && last in sets;
      SetKeepsNames(cols, init, name);
      HasAfter(ApplyAll(cols, init), last, name);
    }
  }

  // ----- the columns there and the columns new -----

  lemma HasConcat(a: seq<Column>, b: seq<Column>, name: string)
    ensures Has(a + b, name) <==> Has(a, name) || Has(b, name)
  {
    NamesOfHas(a + b, name);
    NamesOfHas(a, name);
    NamesOfHas(b, name);
  }

  lemma HasWithoutAny(cols: seq<Column>, name: string, names: set<string>)
    ensures Has(WithoutAll(cols, names), name) <==> Has(cols, name) && name !in names
  {
    if name !in names { HasWithout(cols, name, names); }
  }

  /** One addition to a table of old columns and new ones. */
  lemma AddBeside(was: seq<Column>, extra: seq<Column>, col: Column, names: set<string>)
    requires Has(was, col.name) <==> col.name in names
    ensures Apply(was + WithoutAll(extra, names), Add(col)) == was + WithoutAll(Apply(extra, Add(col)), names)
  {
    hide Has, WithoutAll;
    HasConcat(was, WithoutAll(extra, names), col.name);
    HasWithoutAny(extra, col.name, names);
    WithoutAllConcat(extra, [col], names);
    WithoutOne(col, names);
    assert was + (WithoutAll(extra, names) + [col]) == was + WithoutAll(extra, names) + [col];
    assert WithoutAll(extra, names) + [] == WithoutAll(extra, names);
  }

  lemma WithoutOne(col: Column, names: set<string>)
    ensures WithoutAll([col], names) == if col.name in names then [] else [col]
  {}

  /** Changes without drops set attributes of the columns that are there and add after them what
      they would add to no columns, but for the names there. */
  lemma {:induction false} OldAndNew(cols: seq<Column>, changes: seq<Change>)
    requires forall c :: c in changes ==> !c.Drop?
    ensures ApplyAll(cols, changes) == ApplyAll(cols, Sets(changes)) + WithoutAll(ApplyAll([], changes), NamesOf(cols))
  {
    if changes == [] {
      assert cols + [] == cols;
    } else {
      hide Apply, Sets, Has, WithoutAll, ApplyAll;
      var init, last := changes[..|changes| - 1], changes[|changes| - 1];
      assert changes == init + [last];
      var was, extra, names := ApplyAll(cols, Sets(init)), ApplyAll([], init), NamesOf(cols);
      OldAndNew(cols, init);
      LastChange(cols, init, last);
      LastChange([], init, last);
      if last.Add? {
        AddSetsNothing(init, last);
        SetKeepsNames(cols, Sets(init), last.column.name);
        NamesOfHas(cols, last.column.name);
        AddBeside(was, extra, last.column, names);
      } else {
        SetLast(cols, init, last);
        SetConcat(was, WithoutAll(extra, names), last);
        WithoutAllUpdated(extra, last, names);
      }
    }
  }

  lemma {:induction false} WithoutTwice(cols: seq<Column>, a: set<string>, b: set<string>)
    ensures WithoutAll(WithoutAll(cols, a), b) == WithoutAll(WithoutAll(cols, b), a)
  {
    if cols == [] {
    } else {
      hide WithoutAll;
      var first, rest := cols[0], cols[1..];
      assert cols == [first] + rest;
      WithoutTwice(rest, a, b);
      WithoutAllConcat([first], rest, a);
      WithoutAllConcat([first], rest, b);
      WithoutAllConcat(WithoutAll([first], a), WithoutAll(rest, a), b);
      WithoutAllConcat(WithoutAll([first], b), WithoutAll(rest, b), a);
      WithoutOneTwice(first, a, b);
    }
  }

  lemma WithoutOneTwice(col: Column, a: set<string>, b: set<string>)
    ensures WithoutAll(WithoutAll([col], a), b) == WithoutAll(WithoutAll([col], b), a)
  {
    WithoutOne(col, a);
    WithoutOne(col, b);
  }

  /** Two lists of changes that set the same attributes do the same to every table, up to some names,
      if they do the same to the empty one. */
  lemma AlikeEverywhere(cols: seq<Column>, a: seq<Change>, b: seq<Change>, names: set<string>)
    requires (forall c :: c in a ==> !c.Drop?) && (forall c :: c in b ==> !c.Drop?) && Sets(a) == Sets(b)
    requires WithoutAll(ApplyAll([], a), names) == WithoutAll(ApplyAll([], b), names)
    ensures WithoutAll(ApplyAll(cols, a), names) == WithoutAll(ApplyAll(cols, b), names)
  {
    hide WithoutAll, ApplyAll, Sets;
    OldAndNew(cols, a);
    OldAndNew(cols, b);
    WithoutAllConcat(ApplyAll(cols, Sets(a)), WithoutAll(ApplyAll([], a), NamesOf(cols)), names);
    WithoutAllConcat(ApplyAll(cols, Sets(b)), WithoutAll(ApplyAll([], b), NamesOf(cols)), names);
    WithoutTwice(ApplyAll([], a), NamesOf(cols), names);
    WithoutTwice(ApplyAll([], b), NamesOf(cols), names);
  }
}
