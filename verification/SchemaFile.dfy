/** One migration file, as the schema generator reads it: every CREATE, then every ALTER kind by
    kind, then the drops it takes to be final.  Statements of other tables change nothing here. */
module SchemaFile {
  import opened Basics
  import opened SchemaTable

  /** A statement about the table; an ALTER has its parts in the order they are written. */
  datatype Statement = Create(columns: seq<Column>) | Alter(parts: seq<Change>) | DropTable

  /** The table's columns, if the inventory has the table. */
  type Entry = Option<seq<Column>>

  function Columns(t: Entry): seq<Column> {
    if t.None? then [] else t.value
  }

  function Added(columns: seq<Column>): (r: seq<Change>)
    ensures |r| == |columns| && forall i :: 0 <= i < |columns| ==> r[i] == Add(columns[i])
  {
    seq(|columns|, i requires 0 <= i < |columns| => Add(columns[i]))
  }

  /** The statement makes the inventory have the table. */
  predicate Declares(s: Statement) {
    s.Create? || (s.Alter? && exists c :: c in s.parts && !c.Drop?)
  }

  /** What a statement does to the columns. */
  function Changes(s: Statement): seq<Change> {
    match s
    case Create(columns) => Added(columns)
    case Alter(parts) => parts
    case DropTable => []
  }

  // ----- the statements in written order -----

  function Step(t: Entry, s: Statement): Entry {
    if s.DropTable? then None
    else if t.None? && !Declares(s) then None
    else Some(ApplyAll(Columns(t), Changes(s)))
  }

  /** The table after the first `n` statements. */
  function Written(t: Entry, file: seq<Statement>, n: nat): Entry
    requires n <= |file|
  {
    if n == 0 then t else Step(Written(t, file, n - 1), file[n - 1])
  }

  // ----- the file as the script reads it -----

  /** The four kinds an ALTER is read for, in that order, and drops. */
  function Kind(c: Change): nat {
    match c
    case Add(_) => 0
    case SetNotNull(_, _) => 1
    case SetDefault(_, _) => 2
    case SetValues(_, _) => 3
    case Drop(_) => 4
  }

  function Of(parts: seq<Change>, kind: nat): (r: seq<Change>)
    ensures forall c :: c in r <==> c in parts && Kind(c) == kind
  {
    if parts == [] then []
    else Of(parts[..|parts| - 1], kind) + if Kind(parts[|parts| - 1]) == kind then [parts[|parts| - 1]] else []
  }

  function Created(file: seq<Statement>, n: nat): seq<Change>
    requires n <= |file|
  {
    if n == 0 then [] else Created(file, n - 1) + if file[n - 1].Create? then Added(file[n - 1].columns) else []
  }

  function Altered(file: seq<Statement>, n: nat): seq<Change>
    requires n <= |file|
  {
    if n == 0 then []
    else
      Altered(file, n - 1) + if file[n - 1].Alter? then Read(file[n - 1].parts) else []
  }

  predicate Adds(s: Statement, name: string) {
    s.Alter? && exists c :: c in s.parts && c.Add? && c.column.name == name
  }

  predicate AddsAfter(file: seq<Statement>, i: nat, name: string) {
    exists j :: i < j < |file| && Adds(file[j], name)
  }

  /** The drops of one ALTER that no later ALTER takes back. */
  function FinalDrops(file: seq<Statement>, i: nat, parts: seq<Change>): (r: seq<Change>)
    ensures forall c :: c in r <==> c in parts && c.Drop? && !AddsAfter(file, i, c.name)
  {
    if parts == [] then []
    else
      var last := parts[|parts| - 1];
      FinalDrops(file, i, parts[..|parts| - 1]) +
      if last.Drop? && !AddsAfter(file, i, last.name) then [last] else []
  }

  function Dropped(file: seq<Statement>, n: nat): seq<Change>
    requires n <= |file|
  {
    if n == 0 then []
    else Dropped(file, n - 1) + if file[n - 1].Alter? then FinalDrops(file, n - 1, file[n - 1].parts) else []
  }

  predicate CreatesAfter(file: seq<Statement>, i: nat) {
    exists j :: i < j < |file| && file[j].Create?
  }

  predicate TableDropped(file: seq<Statement>) {
    exists i :: 0 <= i < |file| && file[i].DropTable? && !CreatesAfter(file, i)
  }

  /** `getTable` when some change asks for it, and the changes. */
  function Touch(t: Entry, changes: seq<Change>): Entry {
    if t.None? && changes == [] then None else Some(ApplyAll(Columns(t), changes))
  }

  function Sets(parts: seq<Change>): (r: seq<Change>)
    ensures forall c :: c in r <==> c in parts && IsSet(c)
  {
    var r := Of(parts, 1) + Of(parts, 2) + Of(parts, 3);
    assert forall c: Change :: IsSet(c) <==> Kind(c) in {1, 2, 3};
    r
  }

  function Read(parts: seq<Change>): seq<Change> {
    Of(parts, 0) + Sets(parts)
  }

  function AfterCreates(t: Entry, file: seq<Statement>, n: nat): Entry
    requires n <= |file|
  {
    if n == 0 then t
    else
      var before := AfterCreates(t, file, n - 1);
      if file[n - 1].Create? then Some(ApplyAll(Columns(before), Added(file[n - 1].columns))) else before
  }

  function AfterAlters(t: Entry, file: seq<Statement>, n: nat): Entry
    requires n <= |file|
  {
    if n == 0 then t
    else
      var before := AfterAlters(t, file, n - 1);
      if file[n - 1].Alter? then Touch(before, Read(file[n - 1].parts)) else before
  }

  function AfterDrops(t: Entry, file: seq<Statement>, n: nat): Entry
    requires n <= |file|
  {
    if n == 0 then t
    else
      var before := AfterDrops(t, file, n - 1);
      if file[n - 1].Alter? && before.Some?
      then Some(ApplyAll(before.value, FinalDrops(file, n - 1, file[n - 1].parts)))
      else before
  }

  function Replay(t: Entry, file: seq<Statement>): Entry {
    var read := AfterAlters(AfterCreates(t, file, |file|), file, |file|);
    AfterDrops(if TableDropped(file) then None else read, file, |file|)
  }

  lemma TouchTwice(t: Entry, a: seq<Change>, b: seq<Change>)
    ensures Touch(Touch(t, a), b) == Touch(t, a + b)
  {
    ApplyAllConcat(Columns(t), a, b);
    if a == [] { assert a + b == b; }
    if b == [] { assert a + b == a; }
  }

  lemma ReadsInFour(t: Entry, parts: seq<Change>)
    ensures Touch(Touch(Touch(Touch(t, Of(parts, 0)), Of(parts, 1)), Of(parts, 2)), Of(parts, 3)) == Touch(t, Read(parts))
  {
    hide Touch, Of;
    TouchTwice(t, Of(parts, 0), Of(parts, 1));
    TouchTwice(t, Of(parts, 0) + Of(parts, 1), Of(parts, 2));
    TouchTwice(t, Of(parts, 0) + Of(parts, 1) + Of(parts, 2), Of(parts, 3));
    assert Of(parts, 0) + Of(parts, 1) + Of(parts, 2) + Of(parts, 3) == Read(parts);
  }

  /** The inventory's place for the table. */
  class Slot {
    var table: Table?

    ghost predicate Valid()
      reads this, table
    {
      table != null ==> table.Valid()
    }

    ghost function Holds(): Entry
      reads this, table
    {
      if table == null then None else Some(table.columns)
    }

    constructor ()
      ensures Valid() && Holds() == None
    {
      table := null;
    }

    method GetTable()
      requires Valid()
      modifies this
      ensures Valid() && table != null && (table == old(table) || fresh(table))
      ensures Holds() == Some(Columns(old(Holds())))
    {
      if table == null { table := new Table(); }
    }

    /** The changes of one kind in an ALTER. */
    method ReadKind(changes: seq<Change>)
      requires Valid()
      modifies this, table
      ensures Valid() && (table == old(table) || fresh(table))
      ensures Holds() == Touch(old(Holds()), changes)
    {
      if changes != [] {
        GetTable();
        table.Replay(changes);
      } else {
        assert ApplyAll(Columns(Holds()), []) == Columns(Holds());
      }
    }

    method ReadCreates(file: seq<Statement>)
      requires Valid()
      modifies this, table
      ensures Valid() && (table == old(table) || fresh(table))
      ensures Holds() == AfterCreates(old(Holds()), file, |file|)
    {
      for i := 0 to |file|
        invariant Valid() && (table == old(table) || fresh(table))
        invariant Holds() == AfterCreates(old(Holds()), file, i)
      {
        if file[i].Create? {
          GetTable();
          table.Replay(Added(file[i].columns));
        }
      }
    }

    method ReadAlters(file: seq<Statement>)
      requires Valid()
      modifies this, table
      ensures Valid() && (table == old(table) || fresh(table))
      ensures Holds() == AfterAlters(old(Holds()), file, |file|)
    {
      for i := 0 to |file|
        invariant Valid() && (table == old(table) || fresh(table))
        invariant Holds() == AfterAlters(old(Holds()), file, i)
      {
        if file[i].Alter? {
          var parts := file[i].parts;
          ReadsInFour(Holds(), parts);
          ReadKind(Of(parts, 0));
          ReadKind(Of(parts, 1));
          ReadKind(Of(parts, 2));
          ReadKind(Of(parts, 3));
        }
      }
    }

    /** The table goes when a drop of it is not followed by a CREATE. */
    method DropTables(file: seq<Statement>)
      requires Valid()
      modifies this
      ensures Valid() && (table == old(table) || table == null)
      ensures Holds() == if TableDropped(file) then None else old(Holds())
    {
      for i := 0 to |file|
        invariant table == if exists k :: 0 <= k < i && file[k].DropTable? && !CreatesAfter(file, k) then null else old(table)
      {
        if file[i].DropTable? && !CreatesAfter(file, i) { table := null; }
      }
    }

    method DropColumns(file: seq<Statement>)
      requires Valid()
      modifies this, table
      ensures Valid() && table == old(table)
      ensures Holds() == AfterDrops(old(Holds()), file, |file|)
    {
      hide FinalDrops;
      for i := 0 to |file|
        invariant Valid() && table == old(table)
        invariant Holds() == AfterDrops(old(Holds()), file, i)
      {
        if file[i].Alter? && table != null { table.Replay(FinalDrops(file, i, file[i].parts)); }
      }
    }

    method ParseFile(file: seq<Statement>)
      requires Valid()
      modifies this, table
      ensures Valid() && Holds() == Replay(old(Holds()), file)
    {
      ReadCreates(file);
      ReadAlters(file);
      DropTables(file);
      DropColumns(file);
    }
  }

  // ----- the same, change by change -----

  predicate Mentions(file: seq<Statement>, n: nat)
    requires n <= |file|
  {
    exists i :: 0 <= i < n && Declares(file[i])
  }

  // ----- leaving columns out -----

  function Drops(changes: seq<Change>, drops: bool): (r: seq<Change>)
    ensures forall c :: c in r <==> c in changes && c.Drop? == drops
  {
    if changes == [] then []
    else (if changes[0].Drop? == drops then [changes[0]] else []) + Drops(changes[1..], drops)
  }

  function Names(changes: seq<Change>): set<string> {
    set c | c in changes && c.Drop? :: c.name
  }

  function WithoutAll(cols: seq<Column>, names: set<string>): (r: seq<Column>)
    ensures forall c :: c in r <==> c in cols && c.name !in names
  {
    if cols == [] then []
    else (if cols[0].name !in names then [cols[0]] else []) + WithoutAll(cols[1..], names)
  }

  lemma {:induction false} WithoutAllConcat(a: seq<Column>, b: seq<Column>, names: set<string>)
    ensures WithoutAll(a + b, names) == WithoutAll(a, names) + WithoutAll(b, names)
  {
    if a == [] {
      assert a + b == b;
    } else {
      assert (a + b)[1..] == a[1..] + b;
      WithoutAllConcat(a[1..], b, names);
    }
  }

  lemma {:induction false} WithoutFirst(cols: seq<Column>, name: string, names: set<string>)
    ensures WithoutAll(Without(cols, name), names) == WithoutAll(cols, names + {name})
  {
    if cols == [] {
    } else {
      WithoutFirst(cols[1..], name, names);
      if cols[0].name != name {
        assert Without(cols, name)[1..] == Without(cols[1..], name);
      } else {
        assert Without(cols, name) == Without(cols[1..], name);
      }
    }
  }

  /** Nothing is left out exactly when nothing there is to be. */
  lemma {:induction false} WithoutAllIsAll(cols: seq<Column>, names: set<string>)
    ensures WithoutAll(cols, names) == cols <==> forall c :: c in cols ==> c.name !in names
  {
    if cols == [] {
    } else {
      WithoutAllIsAll(cols[1..], names);
      assert cols == [cols[0]] + cols[1..];
      if cols[0].name in names { assert cols[0] !in WithoutAll(cols, names); }
    }
  }

  lemma UpdatedHead(cols: seq<Column>, change: Change)
    requires cols != [] && IsSet(change)
    ensures Apply(cols, change) == [Update(cols[0], change)] + Apply(cols[1..], change)
    ensures Update(cols[0], change).name == cols[0].name
  {}

  lemma {:induction false} WithoutAllUpdated(cols: seq<Column>, change: Change, names: set<string>)
    requires IsSet(change)
    ensures WithoutAll(Apply(cols, change), names) == Apply(WithoutAll(cols, names), change)
  {
    if cols == [] {
    } else {
      hide Apply, Update;
      var first, rest := cols[0], cols[1..];
      WithoutAllUpdated(rest, change, names);
      UpdatedHead(cols, change);
      assert Apply(cols, change)[1..] == Apply(rest, change);
      if first.name !in names {
        UpdatedHead(WithoutAll(cols, names), change);
        assert WithoutAll(cols, names)[1..] == WithoutAll(rest, names);
      } else {
        assert WithoutAll(cols, names) == WithoutAll(rest, names);
      }
    }
  }

  /** What a change does to the columns of other names does not depend on the columns left out. */
  lemma ApplyWithout(a: seq<Column>, b: seq<Column>, change: Change, names: set<string>)
    requires WithoutAll(a, names) == WithoutAll(b, names) && !change.Drop?
    ensures WithoutAll(Apply(a, change), names) == WithoutAll(Apply(b, change), names)
  {
    if change.Add? {
      var col := change.column;
      WithoutAllConcat(a, [col], names);
      WithoutAllConcat(b, [col], names);
      if col.name !in names {
        HasWithout(a, col.name, names);
        HasWithout(b, col.name, names);
      } else {
        assert WithoutAll([col], names) == [];
      }
    } else {
      WithoutAllUpdated(a, change, names);
      WithoutAllUpdated(b, change, names);
    }
  }

  lemma HasWithout(cols: seq<Column>, name: string, names: set<string>)
    requires name !in names
    ensures Has(WithoutAll(cols, names), name) <==> Has(cols, name)
  {
    if i :| 0 <= i < |cols| && cols[i].name == name { assert cols[i] in WithoutAll(cols, names); }
    if i :| 0 <= i < |WithoutAll(cols, names)| && WithoutAll(cols, names)[i].name == name {
      assert WithoutAll(cols, names)[i] in cols;
    }
  }

  lemma {:induction false} DropsConcat(a: seq<Change>, b: seq<Change>, drops: bool)
    ensures Drops(a + b, drops) == Drops(a, drops) + Drops(b, drops)
  {
    if a == [] {
      assert a + b == b;
    } else {
      assert (a + b)[1..] == a[1..] + b;
      DropsConcat(a[1..], b, drops);
    }
  }

  lemma {:induction false} ApplyAllConcat(cols: seq<Column>, a: seq<Change>, b: seq<Change>)
    ensures ApplyAll(cols, a + b) == ApplyAll(ApplyAll(cols, a), b)
    decreases |b|
  {
    if b == [] {
      assert a + b == a;
    } else {
      assert (a + b)[..|a + b| - 1] == a + b[..|b| - 1];
      ApplyAllConcat(cols, a, b[..|b| - 1]);
    }
  }

  lemma DropIsWithout(cols: seq<Column>, name: string)
    ensures Apply(cols, Drop(name)) == Without(cols, name)
  {}

  lemma LastChange(cols: seq<Column>, init: seq<Change>, last: Change)
    ensures ApplyAll(cols, init + [last]) == Apply(ApplyAll(cols, init), last)
    ensures Drops(init + [last], false) == if last.Drop? then Drops(init, false) else Drops(init, false) + [last]
  {
    assert (init + [last])[..|init|] == init;
    DropsConcat(init, [last], false);
  }

  lemma {:induction false} NoDrops(changes: seq<Change>)
    requires forall c :: c in changes ==> !c.Drop?
    ensures Drops(changes, false) == changes
  {
    if changes == [] {
    } else {
      NoDrops(changes[1..]);
      assert changes == [changes[0]] + changes[1..];
    }
  }

  /** Up to the names in `names`, a history and its part without drops leave the same columns. */
  lemma {:induction false} DropsAside(cols: seq<Column>, changes: seq<Change>, names: set<string>)
    requires Names(changes) <= names
    ensures WithoutAll(ApplyAll(cols, Drops(changes, false)), names) == WithoutAll(ApplyAll(cols, changes), names)
  {
    hide Apply, ApplyAll, Drops, WithoutAll;
    if changes == [] {
      NoDrops(changes);
    } else {
      var init, last := changes[..|changes| - 1], changes[|changes| - 1];
      assert changes == init + [last];
      DropsAside(cols, init, names);
      LastChange(cols, init, last);
      if last.Drop? {
        assert last.name in Names(changes);
        DropIsWithout(ApplyAll(cols, init), last.name);
        WithoutFirst(ApplyAll(cols, init), last.name, names);
        assert names + {last.name} == names;
      } else {
        LastChange(cols, Drops(init, false), last);
        ApplyWithout(ApplyAll(cols, Drops(init, false)), ApplyAll(cols, init), last, names);
      }
    }
  }

  /** Drops alone leave out what they name. */
  lemma {:induction false} DropsOnly(cols: seq<Column>, changes: seq<Change>)
    requires forall c :: c in changes ==> c.Drop?
    ensures ApplyAll(cols, changes) == WithoutAll(cols, Names(changes))
    decreases changes
  {
    if changes == [] {
      WithoutAllIsAll(cols, {});
      assert Names(changes) == {};
    } else {
      var first, rest := changes[0], changes[1..];
      assert changes == [first] + rest;
      ApplyAllConcat(cols, [first], rest);
      assert [first][..0] == [];
      DropsOnly(Without(cols, first.name), rest);
      WithoutFirst(cols, first.name, Names(rest));
      assert Names(changes) == Names(rest) + {first.name};
    }
  }

  // ----- the last word on a name -----

  datatype Word = Nothing | Adding | Dropping

  function WordOf(c: Change, name: string): Word {
    if c.Add? && c.column.name == name then Adding else if c == Drop(name) then Dropping else Nothing
  }

  /** What the last change that adds or drops the name does. */
  function LastWord(changes: seq<Change>, name: string): Word {
    if changes == [] then Nothing
    else
      var word := WordOf(changes[|changes| - 1], name);
      if word != Nothing then word else LastWord(changes[..|changes| - 1], name)
  }

  lemma {:induction false} LastWordConcat(a: seq<Change>, b: seq<Change>, name: string)
    ensures LastWord(a + b, name) == if LastWord(b, name) != Nothing then LastWord(b, name) else LastWord(a, name)
    decreases |b|
  {
    if b == [] {
      assert a + b == a;
    } else {
      assert (a + b)[..|a + b| - 1] == a + b[..|b| - 1];
      LastWordConcat(a, b[..|b| - 1], name);
    }
  }

  lemma {:induction false} NoWord(changes: seq<Change>, name: string)
    ensures LastWord(changes, name) == Nothing <==> forall c :: c in changes ==> WordOf(c, name) == Nothing
    ensures LastWord(changes, name) == Adding ==> exists c :: c in changes && WordOf(c, name) == Adding
    ensures LastWord(changes, name) == Dropping ==> exists c :: c in changes && WordOf(c, name) == Dropping
  {
    if changes == [] {
    } else {
      NoWord(changes[..|changes| - 1], name);
      assert changes == changes[..|changes| - 1] + [changes[|changes| - 1]];
    }
  }

  lemma {:induction false} LastWordDecides(cols: seq<Column>, changes: seq<Change>, name: string)
    ensures Has(ApplyAll(cols, changes), name) <==>
              LastWord(changes, name) == Adding || (LastWord(changes, name) == Nothing && Has(cols, name))
  {
    if changes == [] {
    } else {
      hide Has, Apply;
      LastWordDecides(cols, changes[..|changes| - 1], name);
      HasAfter(ApplyAll(cols, changes[..|changes| - 1]), changes[|changes| - 1], name);
    }
  }

  lemma AddingIsForGood(changes: seq<Change>, name: string)
    ensures LastWord(changes, name) == Adding <==> exists k: nat :: AddsForGood(changes, k, name)
  {
    LastWordDecides([], changes, name);
    HistoryDecidesColumns([], changes, name);
  }

  // ----- the phases in one go -----

  lemma CreatesStart(t: Entry, file: seq<Statement>)
    ensures AfterCreates(t, file, 0) == if t.None? then None else Some(ApplyAll(Columns(t), Created(file, 0)))
  {}

  lemma {:induction false} CreatesAre(t: Entry, file: seq<Statement>, n: nat)
    requires n <= |file|
    ensures AfterCreates(t, file, n) ==
            if t.None? && forall i :: 0 <= i < n ==> !file[i].Create? then None
            else Some(ApplyAll(Columns(t), Created(file, n)))
  {
    hide ApplyAll;
    if n == 0 {
      CreatesStart(t, file);
    } else {
      CreatesAre(t, file, n - 1);
      if file[n - 1].Create? {
        ApplyAllConcat(Columns(t), Created(file, n - 1), Added(file[n - 1].columns));
        if AfterCreates(t, file, n - 1).None? { NothingCreated(file, n - 1); }
      } else {
        assert Created(file, n - 1) + [] == Created(file, n - 1);
      }
    }
  }

  lemma {:induction false} NothingCreated(file: seq<Statement>, n: nat)
    requires n <= |file| && forall i :: 0 <= i < n ==> !file[i].Create?
    ensures Created(file, n) == [] && ApplyAll([], Created(file, n)) == []
  {
    if n == 0 {
    } else {
      NothingCreated(file, n - 1);
    }
  }

  lemma {:induction false} AltersAre(t: Entry, file: seq<Statement>, n: nat)
    requires n <= |file|
    ensures AfterAlters(t, file, n) == Touch(t, Altered(file, n))
  {
    hide Read;
    if n == 0 {
    } else {
      AltersAre(t, file, n - 1);
      if file[n - 1].Alter? {
        TouchTwice(t, Altered(file, n - 1), Read(file[n - 1].parts));
      } else {
        assert Altered(file, n - 1) + [] == Altered(file, n - 1);
      }
    }
  }

  lemma DropsStart(t: Entry, file: seq<Statement>)
    ensures AfterDrops(t, file, 0) == if t.None? then None else Some(ApplyAll(t.value, Dropped(file, 0)))
  {}

  lemma {:induction false} DropsAre(t: Entry, file: seq<Statement>, n: nat)
    requires n <= |file|
    ensures AfterDrops(t, file, n) == if t.None? then None else Some(ApplyAll(t.value, Dropped(file, n)))
  {
    hide FinalDrops, ApplyAll;
    if n == 0 {
      DropsStart(t, file);
    } else {
      DropsAre(t, file, n - 1);
      if file[n - 1].Alter? && t.Some? {
        ApplyAllConcat(t.value, Dropped(file, n - 1), FinalDrops(file, n - 1, file[n - 1].parts));
      } else {
        assert Dropped(file, n - 1) + [] == Dropped(file, n - 1);
      }
    }
  }

  lemma ReadDeclares(parts: seq<Change>)
    ensures Read(parts) == [] <==> !Declares(Alter(parts))
    ensures forall c :: c in Read(parts) <==> c in parts && !c.Drop?
  {
    forall c ensures c in Read(parts) <==> c in parts && !c.Drop? {
      assert !c.Drop? <==> Kind(c) < 4;
    }
    if Read(parts) != [] { assert Read(parts)[0] in Read(parts); }
  }

  lemma {:induction false} NothingAltered(file: seq<Statement>, n: nat)
    requires n <= |file|
    ensures Altered(file, n) == [] <==> forall i :: 0 <= i < n && file[i].Alter? ==> !Declares(file[i])
  {
    hide Read;
    if n == 0 {
    } else {
      NothingAltered(file, n - 1);
      if file[n - 1].Alter? { ReadDeclares(file[n - 1].parts); }
    }
  }

  /** The script's phases come to one list of changes. */
  lemma ReplayIs(t: Entry, file: seq<Statement>)
    ensures Replay(t, file) ==
            if TableDropped(file) || (t.None? && !Mentions(file, |file|)) then None
            else Some(ApplyAll(Columns(t), Created(file, |file|) + Altered(file, |file|) + Dropped(file, |file|)))
  {
    hide ApplyAll, Created, Altered, Dropped, AfterCreates, AfterAlters, AfterDrops;
    var n := |file|;
    var created := AfterCreates(t, file, n);
    CreatesAre(t, file, n);
    AltersAre(created, file, n);
    NothingAltered(file, n);
    DropsAre(if TableDropped(file) then None else AfterAlters(created, file, n), file, n);
    if created.None? {
      NothingCreated(file, n);
      assert [] + Altered(file, n) == Altered(file, n);
    } else {
      ApplyAllConcat(Columns(t), Created(file, n), Altered(file, n));
    }
    ApplyAllConcat(Columns(t), Created(file, n) + Altered(file, n), Dropped(file, n));
  }

  /** The script ends without the table exactly when some drop of it has no CREATE after it, or when it
      was not there and no statement asks for it. */
  lemma TableGoesIff(t: Entry, file: seq<Statement>)
    ensures Replay(t, file) == None <==>
              || (exists i :: 0 <= i < |file| && file[i].DropTable? && forall j :: i < j < |file| ==> !file[j].Create?)
              || (t == None && forall i :: 0 <= i < |file| ==>
                    !file[i].Create? && (file[i].Alter? ==> forall c :: c in file[i].parts ==> c.Drop?))
  {
    hide Replay, Created, Altered, Dropped, ApplyAll;
    ReplayIs(t, file);
    assert TableDropped(file) <==> exists i :: 0 <= i < |file| && file[i].DropTable? && forall j :: i < j < |file| ==> !file[j].Create?;
  }

  /** The changes of the first `n` statements as they are written. */
  function Flat(file: seq<Statement>, n: nat): seq<Change>
    requires n <= |file|
  {
    if n == 0 then [] else Flat(file, n - 1) + Changes(file[n - 1])
  }

  predicate KeepsTable(file: seq<Statement>) {
    forall i :: 0 <= i < |file| ==> !file[i].DropTable?
  }

  lemma {:induction false} NothingMentioned(file: seq<Statement>, n: nat)
    requires n <= |file| && !Mentions(file, n)
    ensures forall c :: c in Flat(file, n) ==> c.Drop?
  {
    if n == 0 {
    } else {
      assert !Declares(file[n - 1]);
      NothingMentioned(file, n - 1);
    }
  }

  lemma StepAppends(t: Entry, before: Entry, s: Statement, changes: seq<Change>, mentioned: bool)
    requires !s.DropTable? && (t.None? && !mentioned ==> ApplyAll([], changes) == [])
    requires before == if t.None? && !mentioned then None else Some(ApplyAll(Columns(t), changes))
    ensures Step(before, s) ==
            if t.None? && !(mentioned || Declares(s)) then None else Some(ApplyAll(Columns(t), changes + Changes(s)))
  {
    hide ApplyAll, Declares, Changes;
    ApplyAllConcat(Columns(t), changes, Changes(s));
  }

  lemma NothingYet(t: Entry, file: seq<Statement>)
    ensures !Mentions(file, 0) && (t.Some? ==> t == Some(ApplyAll(Columns(t), [])))
  {}

  /** Statements in written order come to their changes in written order. */
  lemma {:induction false} WrittenIs(t: Entry, file: seq<Statement>, n: nat)
    requires n <= |file| && forall i :: 0 <= i < n ==> !file[i].DropTable?
    ensures Written(t, file, n) ==
            if t.None? && !Mentions(file, n) then None else Some(ApplyAll(Columns(t), Flat(file, n)))
  {
    hide ApplyAll, Declares, Changes, Mentions, Step;
    if n == 0 {
      NothingYet(t, file);
    } else {
      WrittenIs(t, file, n - 1);
      MentionsNext(file, n);
      if t.None? && !Mentions(file, n - 1) { NothingWritten(file, n - 1); }
      StepAppends(t, Written(t, file, n - 1), file[n - 1], Flat(file, n - 1), Mentions(file, n - 1));
    }
  }

  lemma MentionsNext(file: seq<Statement>, n: nat)
    requires 0 < n <= |file|
    ensures Mentions(file, n) <==> Mentions(file, n - 1) || Declares(file[n - 1])
  {
    hide Declares;
  }

  lemma NothingWritten(file: seq<Statement>, n: nat)
    requires n <= |file| && !Mentions(file, n)
    ensures ApplyAll([], Flat(file, n)) == []
  {
    NothingMentioned(file, n);
    DropsOnly([], Flat(file, n));
  }

  // ----- which columns are there -----

  predicate DropsIn(file: seq<Statement>, n: nat, name: string)
    requires n <= |file|
  {
    exists i :: 0 <= i < n && file[i].Alter? && Drop(name) in file[i].parts
  }

  predicate FinallyDropped(file: seq<Statement>, name: string) {
    exists i :: 0 <= i < |file| && file[i].Alter? && Drop(name) in file[i].parts && !AddsAfter(file, i, name)
  }

  lemma {:induction false} DroppedAre(file: seq<Statement>, n: nat)
    requires n <= |file|
    ensures forall c :: c in Dropped(file, n) <==>
              c.Drop? && exists i :: 0 <= i < n && file[i].Alter? && c in file[i].parts && !AddsAfter(file, i, c.name)
  {
    if n == 0 {
    } else {
      DroppedAre(file, n - 1);
    }
  }

  predicate AddsIn(file: seq<Statement>, n: nat, name: string)
    requires n <= |file|
  {
    exists i, c :: 0 <= i < n && c in Changes(file[i]) && WordOf(c, name) == Adding
  }

  predicate InFile(file: seq<Statement>, n: nat, c: Change)
    requires n <= |file|
  {
    exists i :: 0 <= i < n && c in Changes(file[i])
  }

  lemma InFileNext(file: seq<Statement>, n: nat, c: Change)
    requires 0 < n <= |file|
    ensures InFile(file, n, c) <==> InFile(file, n - 1, c) || c in Changes(file[n - 1])
  {
    hide Changes;
  }

  lemma ReadNext(file: seq<Statement>, n: nat, c: Change)
    requires 0 < n <= |file|
    ensures c in Created(file, n) + Altered(file, n) <==>
              c in Created(file, n - 1) + Altered(file, n - 1) || (c in Changes(file[n - 1]) && !c.Drop?)
  {
    hide Read;
    if file[n - 1].Alter? { ReadDeclares(file[n - 1].parts); }
  }

  lemma NothingRead(file: seq<Statement>, c: Change)
    ensures c !in Created(file, 0) + Altered(file, 0) && !InFile(file, 0, c)
  {}

  lemma {:induction false} ReadAre(file: seq<Statement>, n: nat, c: Change)
    requires n <= |file|
    ensures c in Created(file, n) + Altered(file, n) <==> !c.Drop? && InFile(file, n, c)
  {
    hide Created, Altered, Changes, InFile;
    if n == 0 {
      NothingRead(file, c);
    } else {
      ReadAre(file, n - 1, c);
      ReadNext(file, n, c);
      InFileNext(file, n, c);
    }
  }

  lemma ReadWord(file: seq<Statement>, name: string)
    ensures LastWord(Created(file, |file|) + Altered(file, |file|), name) == if AddsIn(file, |file|, name) then Adding else Nothing
  {
    hide Changes, LastWord;
    var read := Created(file, |file|) + Altered(file, |file|);
    forall c ensures c in read <==> !c.Drop? && InFile(file, |file|, c) {
      ReadAre(file, |file|, c);
    }
    NoWord(read, name);
  }

  lemma DroppedWord(file: seq<Statement>, name: string)
    ensures LastWord(Dropped(file, |file|), name) == if FinallyDropped(file, name) then Dropping else Nothing
  {
    hide LastWord, AddsAfter;
    DroppedAre(file, |file|);
    NoWord(Dropped(file, |file|), name);
    assert WordOf(Drop(name), name) == Dropping;
  }

  /** The script has a column exactly when the table had it or some statement adds it, no drop of it
      is final, and neither is one of the table. */
  lemma ReplayHas(t: Entry, file: seq<Statement>, name: string)
    ensures Has(Columns(Replay(t, file)), name) <==>
              !TableDropped(file) && (Has(Columns(t), name) || AddsIn(file, |file|, name)) && !FinallyDropped(file, name)
  {
    hide Has, ApplyAll, Replay, LastWord, AddsIn, FinallyDropped, Mentions, Created, Altered, Dropped;
    var n := |file|;
    ReplayIs(t, file);
    ReadWord(file, name);
    DroppedWord(file, name);
    LastWordDecides(Columns(t), Created(file, n) + Altered(file, n) + Dropped(file, n), name);
    LastWordConcat(Created(file, n) + Altered(file, n), Dropped(file, n), name);
    NoColumns(name);
    if t.None? && !Mentions(file, n) { NothingAdded(file, n, name); }
  }

  /** The changes since the table was last dropped. */
  function Since(file: seq<Statement>, n: nat): seq<Change>
    requires n <= |file|
  {
    if n == 0 || file[n - 1].DropTable? then [] else Since(file, n - 1) + Changes(file[n - 1])
  }

  /** In the written order a column is there exactly when the last change of it since the table was
      last dropped adds it, or when it was there and neither it nor the table is ever dropped. */
  lemma {:induction false} WrittenHas(t: Entry, file: seq<Statement>, n: nat, name: string)
    requires n <= |file|
    ensures Has(Columns(Written(t, file, n)), name) <==>
              LastWord(Since(file, n), name) == Adding ||
              (LastWord(Since(file, n), name) == Nothing && Has(Columns(t), name) && forall i :: 0 <= i < n ==> !file[i].DropTable?)
  {
    hide Has, ApplyAll, LastWord, Changes;
    NoColumns(name);
    if n == 0 {
      NoWord([], name);
    } else {
      WrittenHas(t, file, n - 1, name);
      if file[n - 1].DropTable? {
        NoWord([], name);
      } else {
        var before := Written(t, file, n - 1);
        LastWordConcat(Since(file, n - 1), Changes(file[n - 1]), name);
        LastWordDecides(Columns(before), Changes(file[n - 1]), name);
        if before.None? && !Declares(file[n - 1]) { UndeclaredWord(file[n - 1], name); }
      }
    }
  }

  lemma UndeclaredWord(s: Statement, name: string)
    requires !Declares(s)
    ensures LastWord(Changes(s), name) != Adding
  {
    NoWord(Changes(s), name);
  }

  lemma NoColumns(name: string)
    ensures !Has([], name)
  {}

  lemma NothingAdded(file: seq<Statement>, n: nat, name: string)
    requires n <= |file| && !Mentions(file, n)
    ensures !AddsIn(file, n, name)
  {
    forall i, c | 0 <= i < n && c in Changes(file[i]) ensures WordOf(c, name) != Adding {
      assert !Declares(file[i]);
    }
  }

  /** The last drop of the name is undone only where the script does not look: later in its own
      ALTER, or in a CREATE after it. */
  predicate LosesReAdd(file: seq<Statement>, name: string) {
    exists i :: 0 <= i < |file| && LosesReAddAt(file, i, name)
  }

  predicate LosesReAddAt(file: seq<Statement>, i: nat, name: string)
    requires i < |file|
  {
    file[i].Alter? && Drop(name) in file[i].parts && !AddsAfter(file, i, name) &&
    (forall j :: i < j < |file| ==> Drop(name) !in Changes(file[j])) &&
    (LastWord(file[i].parts, name) == Adding ||
     exists j :: i < j < |file| && file[j].Create? && LastWord(Changes(file[j]), name) == Adding)
  }

  lemma {:induction false} FlatAre(file: seq<Statement>, n: nat)
    requires n <= |file|
    ensures forall c :: c in Flat(file, n) <==> exists i :: 0 <= i < n && c in Changes(file[i])
  {
    hide Changes;
    if n == 0 {
    } else {
      FlatAre(file, n - 1);
    }
  }

  /** Past statement `i` only additions speak of the name. */
  lemma {:induction false} WordAfter(file: seq<Statement>, i: nat, n: nat, name: string)
    requires i < n <= |file| && forall j :: i < j < n ==> Drop(name) !in Changes(file[j])
    ensures LastWord(Flat(file, n), name) ==
            if exists j :: i < j < n && LastWord(Changes(file[j]), name) == Adding then Adding
            else LastWord(Flat(file, i + 1), name)
    decreases n
  {
    hide Changes, LastWord;
    if n == i + 1 {
    } else {
      WordAfter(file, i, n - 1, name);
      LastWordConcat(Flat(file, n - 1), Changes(file[n - 1]), name);
      NoWord(Changes(file[n - 1]), name);
    }
  }

  lemma {:induction false} LastDropping(file: seq<Statement>, n: nat, name: string) returns (i: nat)
    requires n <= |file| && DropsIn(file, n, name)
    ensures i < n && file[i].Alter? && Drop(name) in file[i].parts
    ensures forall j :: i < j < n ==> Drop(name) !in Changes(file[j])
  {
    if Drop(name) in Changes(file[n - 1]) {
      i := n - 1;
    } else {
      i := LastDropping(file, n - 1, name);
    }
  }

  /** In the written order: the last ALTER that drops the name decides, with what follows in it and
      after it. */
  lemma WrittenWord(file: seq<Statement>, i: nat, name: string)
    requires i < |file| && file[i].Alter? && Drop(name) in file[i].parts
    requires forall j :: i < j < |file| ==> Drop(name) !in Changes(file[j])
    ensures FinallyDropped(file, name) <==> !AddsAfter(file, i, name)
    ensures LastWord(Flat(file, |file|), name) == Adding <==>
              AddsAfter(file, i, name) || LastWord(file[i].parts, name) == Adding ||
              exists j :: i < j < |file| && file[j].Create? && LastWord(Changes(file[j]), name) == Adding
    ensures LastWord(Flat(file, |file|), name) != Nothing
  {
    hide LastWord;
    WordAfter(file, i, |file|, name);
    LastWordConcat(Flat(file, i), file[i].parts, name);
    NoWord(file[i].parts, name);
    assert WordOf(Drop(name), name) == Dropping;
    forall j | i < j < |file| ensures LastWord(Changes(file[j]), name) == Adding <==>
        Adds(file[j], name) || (file[j].Create? && LastWord(Changes(file[j]), name) == Adding) {
      NoWord(Changes(file[j]), name);
    }
    forall k | 0 <= k < |file| && file[k].Alter? && Drop(name) in file[k].parts ensures k <= i {}
  }

  /** The script and the written order agree on a column being there if and only if no re-add of it
      stands where the script does not look. */
  lemma PresenceAgreesIff(t: Entry, file: seq<Statement>, name: string)
    requires KeepsTable(file)
    ensures (Has(Columns(Replay(t, file)), name) <==> Has(Columns(Written(t, file, |file|)), name)) <==>
              !LosesReAdd(file, name)
  {
    hide Has, ApplyAll, LastWord, Replay, LosesReAdd;
    var n := |file|;
    ReplayHas(t, file, name);
    WrittenIs(t, file, n);
    LastWordDecides(Columns(t), Flat(file, n), name);
    if t.None? && !Mentions(file, n) { NothingAdded(file, n, name); NoColumns(name); NothingWritten(file, n); }
    if DropsIn(file, n, name) {
      var i := LastDropping(file, n, name);
      WrittenWord(file, i, name);
      LosesAt(file, i, name);
      if AddsAfter(file, i, name) { AddsAfterIn(file, i, name); }
    } else {
      NeverDropped(file, name);
    }
  }

  lemma LosesAt(file: seq<Statement>, i: nat, name: string)
    requires i < |file| && file[i].Alter? && Drop(name) in file[i].parts
    requires forall j :: i < j < |file| ==> Drop(name) !in Changes(file[j])
    ensures LosesReAdd(file, name) <==> LosesReAddAt(file, i, name)
  {
    forall k | 0 <= k < |file| && LosesReAddAt(file, k, name) ensures k == i {}
  }

  lemma NeverDropped(file: seq<Statement>, name: string)
    requires !DropsIn(file, |file|, name)
    ensures !LosesReAdd(file, name) && !FinallyDropped(file, name)
    ensures LastWord(Flat(file, |file|), name) == if AddsIn(file, |file|, name) then Adding else Nothing
  {
    hide LastWord;
    FlatAre(file, |file|);
    NoWord(Flat(file, |file|), name);
    forall c | c in Flat(file, |file|) ensures WordOf(c, name) != Dropping {
      var i :| 0 <= i < |file| && c in Changes(file[i]);
      assert file[i].Create? ==> c.Add?;
    }
  }

  lemma AddsAfterIn(file: seq<Statement>, i: nat, name: string)
    requires AddsAfter(file, i, name)
    ensures AddsIn(file, |file|, name)
  {
    var j :| i < j < |file| && Adds(file[j], name);
    var c :| c in file[j].parts && c.Add? && c.column.name == name;
    assert c in Changes(file[j]) && WordOf(c, name) == Adding;
  }
}
