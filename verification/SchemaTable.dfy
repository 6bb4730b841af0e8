/** A table of the generated schema: columns in declaration order, with an index by name. */
module SchemaTable {

  datatype Column = Column(name: string, pgType: string, notNull: bool, hasDefault: bool, values: seq<string>)

  /** What a migration does to one table. */
  datatype Change =
    | Add(column: Column)
    | SetNotNull(name: string, notNull: bool)
    | SetDefault(name: string, hasDefault: bool)
    | SetValues(name: string, values: seq<string>)
    | Drop(name: string)

  // ----- the table as an ordered association list -----

  predicate Has(cols: seq<Column>, name: string) {
    exists i :: 0 <= i < |cols| && cols[i].name == name
  }

  ghost predicate Unique(cols: seq<Column>) {
    forall i, j :: 0 <= i < j < |cols| ==> cols[i].name != cols[j].name
  }

  function Without(cols: seq<Column>, name: string): (r: seq<Column>)
    ensures forall c :: c in r <==> c in cols && c.name != name
  {
    if cols == [] then [] else (if cols[0].name != name then [cols[0]] else []) + Without(cols[1..], name)
  }

  /** A change of one attribute. */
  predicate IsSet(change: Change) {
    change.SetNotNull? || change.SetDefault? || change.SetValues?
  }

  function Update(c: Column, change: Change): Column {
    match change
    case SetNotNull(name, notNull) => if c.name == name then c.(notNull := notNull) else c
    case SetDefault(name, hasDefault) => if c.name == name then c.(hasDefault := hasDefault) else c
    case SetValues(name, values) => if c.name == name then c.(values := values) else c
    case _ => c
  }

  /** The first declaration of a name stands; a dropped name may be added again, at the end. */
  function Apply(cols: seq<Column>, change: Change): seq<Column> {
    match change
    case Add(column) => if Has(cols, column.name) then cols else cols + [column]
    case Drop(name) => Without(cols, name)
    case _ => seq(|cols|, i requires 0 <= i < |cols| => Update(cols[i], change))
  }

  function ApplyAll(cols: seq<Column>, changes: seq<Change>): seq<Column> {
    if changes == [] then cols else Apply(ApplyAll(cols, changes[..|changes| - 1]), changes[|changes| - 1])
  }

  // ----- the table with its index -----

  /** The index maps each name to the position of its one column. */
  ghost predicate Indexes(index: map<string, nat>, cols: seq<Column>) {
    && (forall i :: 0 <= i < |cols| ==> cols[i].name in index && index[cols[i].name] == i)
    && (forall name :: name in index ==> index[name] < |cols| && cols[index[name]].name == name)
  }

  method IndexOf(cols: seq<Column>) returns (index: map<string, nat>)
    requires Unique(cols)
    ensures Indexes(index, cols)
  {
    index := map[];
    for i := 0 to |cols|
      invariant Indexes(index, cols[..i])
    {
      index := index[cols[i].name := i];
    }
    assert cols[..|cols|] == cols;
  }

  class Table {
    var columns: seq<Column>
    var index: map<string, nat>

    ghost predicate Valid()
      reads this
    {
      Indexes(index, columns)
    }

    constructor ()
      ensures Valid() && columns == []
    {
      columns, index := [], map[];
    }

    method AddColumn(col: Column)
      requires Valid()
      modifies this
      ensures Valid() && columns == Apply(old(columns), Add(col))
    {
      if col.name in index { return; }
      index := index[col.name := |columns|];
      columns := columns + [col];
    }

    method Modify(change: Change)
      requires Valid() && IsSet(change)
      modifies this
      ensures Valid() && columns == Apply(old(columns), change)
      ensures |columns| == |old(columns)|
      ensures forall i :: 0 <= i < |columns| && old(columns)[i].name != change.name ==> columns[i] == old(columns)[i]
      ensures forall i :: 0 <= i < |columns| && old(columns)[i].name == change.name ==>
                match change
                case SetNotNull(_, notNull) => columns[i] == old(columns)[i].(notNull := notNull)
                case SetDefault(_, hasDefault) => columns[i] == old(columns)[i].(hasDefault := hasDefault)
                case SetValues(_, values) => columns[i] == old(columns)[i].(values := values)
                case _ => true
    {
      if change.name !in index {
        assert forall i :: 0 <= i < |columns| ==> columns[i].name != change.name;
        return;
      }
      var i := index[change.name];
      assert forall k :: 0 <= k < |columns| && k != i ==> columns[k].name != change.name;
      columns := columns[i := Update(columns[i], change)];
    }

    method DropColumn(name: string)
      requires Valid()
      modifies this
      ensures Valid() && columns == Apply(old(columns), Drop(name))
      ensures name !in old(index) ==> columns == old(columns)
      ensures name in old(index) ==> columns == old(columns[..index[name]]) + old(columns[index[name] + 1..])
    {
      hide Without, Indexes, Unique;
      DropMeans(columns, index, name);
      if name !in index { return; }
      columns := Without(columns, name);
      index := IndexOf(columns);
    }

    /** The migrations of a table, in order. */
    method Replay(changes: seq<Change>)
      requires Valid()
      modifies this
      ensures Valid() && columns == ApplyAll(old(columns), changes)
    {
      for i := 0 to |changes|
        invariant Valid() && columns == ApplyAll(old(columns), changes[..i])
      {
        assert changes[..i + 1][..i] == changes[..i];
        match changes[i]
        case Add(column) => AddColumn(column);
        case Drop(name) => DropColumn(name);
        case _ => Modify(changes[i]);
      }
      assert changes[..|changes|] == changes;
    }
  }

  lemma {:induction false} WithoutNothing(cols: seq<Column>, name: string)
    requires forall i :: 0 <= i < |cols| ==> cols[i].name != name
    ensures Without(cols, name) == cols
  {
    if cols == [] {
    } else {
      WithoutNothing(cols[1..], name);
      assert cols == [cols[0]] + cols[1..];
    }
  }

  lemma DropMeans(cols: seq<Column>, index: map<string, nat>, name: string)
    requires Indexes(index, cols)
    ensures name in index ==> index[name] < |cols|
    ensures Without(cols, name) == if name in index then cols[..index[name]] + cols[index[name] + 1..] else cols
    ensures Unique(Without(cols, name))
  {
    WithoutKeepsUnique(cols, name);
    if name in index { WithoutOne(cols, index[name]); } else { WithoutNothing(cols, name); }
  }

  lemma {:induction false} WithoutOne(cols: seq<Column>, i: nat)
    requires i < |cols| && forall k :: 0 <= k < |cols| && k != i ==> cols[k].name != cols[i].name
    ensures Without(cols, cols[i].name) == cols[..i] + cols[i + 1..]
  {
    if i == 0 {
      WithoutNothing(cols[1..], cols[0].name);
    } else {
      WithoutOne(cols[1..], i - 1);
      assert cols[..i] + cols[i + 1..] == [cols[0]] + (cols[1..][..i - 1] + cols[1..][i..]);
    }
  }

  lemma {:induction false} WithoutKeepsUnique(cols: seq<Column>, name: string)
    requires Unique(cols)
    ensures Unique(Without(cols, name))
  {
    if cols == [] {
    } else {
      WithoutKeepsUnique(cols[1..], name);
      var rest := Without(cols[1..], name);
      forall j | 0 <= j < |rest| ensures rest[j].name != cols[0].name {
        assert rest[j] in rest && rest[j] in cols[1..];
      }
    }
  }

  // ----- what the list remembers -----

  /** Names stay unique over any history. */
  lemma {:induction false} HistoryKeepsUnique(cols: seq<Column>, changes: seq<Change>)
    requires Unique(cols)
    ensures Unique(ApplyAll(cols, changes))
  {
    if changes == [] {
    } else {
      var before, change := ApplyAll(cols, changes[..|changes| - 1]), changes[|changes| - 1];
      HistoryKeepsUnique(cols, changes[..|changes| - 1]);
      if change.Drop? { WithoutKeepsUnique(before, change.name); }
    }
  }

  /** Change `k` adds the name and no later change drops it. */
  ghost predicate AddsForGood(changes: seq<Change>, k: nat, name: string) {
    k < |changes| && changes[k].Add? && changes[k].column.name == name &&
    forall j :: k < j < |changes| ==> changes[j] != Drop(name)
  }

  lemma ForGoodNext(init: seq<Change>, last: Change, name: string)
    ensures (exists k: nat :: AddsForGood(init + [last], k, name)) <==>
              (last.Add? && last.column.name == name) || (last != Drop(name) && exists k: nat :: AddsForGood(init, k, name))
  {
    var changes := init + [last];
    assert changes[|init|] == last;
    forall k: nat | k < |init| ensures AddsForGood(changes, k, name) <==> AddsForGood(init, k, name) && last != Drop(name) {
      assert changes[k] == init[k];
      assert forall j :: k < j < |init| ==> changes[j] == init[j];
    }
    assert AddsForGood(changes, |init|, name) <==> last.Add? && last.column.name == name;
  }

  /** A history leaves a table with a column exactly when some change adds it and none after that
      drops it, or when it was there and no change drops it. */
  lemma {:induction false} HistoryDecidesColumns(cols: seq<Column>, changes: seq<Change>, name: string)
    ensures Has(ApplyAll(cols, changes), name) <==>
              (exists k: nat :: AddsForGood(changes, k, name)) || (Has(cols, name) && Drop(name) !in changes)
  {
    if changes == [] {
    } else {
      hide Has, Apply, AddsForGood;
      var init, last := changes[..|changes| - 1], changes[|changes| - 1];
      assert changes == init + [last];
      HistoryDecidesColumns(cols, init, name);
      HasAfter(ApplyAll(cols, init), last, name);
      ForGoodNext(init, last, name);
    }
  }

  lemma HasAfter(cols: seq<Column>, change: Change, name: string)
    ensures Has(Apply(cols, change), name) <==>
              (Has(cols, name) && change != Drop(name)) || (change.Add? && change.column.name == name)
  {
    var after := Apply(cols, change);
    match change
    case Add(column) =>
      if !Has(cols, column.name) {
        assert after[|cols|] == column;
        if i :| 0 <= i < |cols| && cols[i].name == name { assert after[i] == cols[i]; }
      }
    case Drop(n) =>
      if i :| 0 <= i < |cols| && cols[i].name == name && name != n {
        assert cols[i] in after;
      }
      if i :| 0 <= i < |after| && after[i].name == name {
        assert after[i] in cols;
      }
    case _ =>
      if i :| 0 <= i < |cols| && cols[i].name == name { assert after[i].name == name; }
      if i :| 0 <= i < |after| && after[i].name == name { assert cols[i].name == name; }
  }

  // ----- what a column has become -----

  /** The value last set for the name, or `v` when none was. */
  function LastNotNull(changes: seq<Change>, name: string, v: bool): bool {
    if changes == [] then v
    else
      match changes[|changes| - 1]
      case SetNotNull(n, notNull) => if n == name then notNull else LastNotNull(changes[..|changes| - 1], name, v)
      case _ => LastNotNull(changes[..|changes| - 1], name, v)
  }

  function LastDefault(changes: seq<Change>, name: string, v: bool): bool {
    if changes == [] then v
    else
      match changes[|changes| - 1]
      case SetDefault(n, hasDefault) => if n == name then hasDefault else LastDefault(changes[..|changes| - 1], name, v)
      case _ => LastDefault(changes[..|changes| - 1], name, v)
  }

  function LastValues(changes: seq<Change>, name: string, v: seq<string>): seq<string> {
    if changes == [] then v
    else
      match changes[|changes| - 1]
      case SetValues(n, values) => if n == name then values else LastValues(changes[..|changes| - 1], name, v)
      case _ => LastValues(changes[..|changes| - 1], name, v)
  }

  /** `c` is the declaration `d` with each attribute as it was last set since. */
  predicate Grew(c: Column, d: Column, since: seq<Change>) {
    && c.name == d.name && c.pgType == d.pgType
    && c.notNull == LastNotNull(since, d.name, d.notNull)
    && c.hasDefault == LastDefault(since, d.name, d.hasDefault)
    && c.values == LastValues(since, d.name, d.values)
  }

  /** Where a column stems from: it was there, or change `k - 1` added it when no column had the name;
      and since then nothing dropped it. */
  predicate Stems(cols: seq<Column>, changes: seq<Change>, d: Column, k: nat) {
    && k <= |changes| && Drop(d.name) !in changes[k..]
    && (if k == 0 then d in cols else changes[k - 1] == Add(d) && !Has(ApplyAll(cols, changes[..k - 1]), d.name))
  }

  lemma StemsNext(cols: seq<Column>, init: seq<Change>, last: Change, c: Column, d: Column, k: nat)
    requires Stems(cols, init, d, k) && Grew(c, d, init[k..]) && last != Drop(d.name)
    ensures Stems(cols, init + [last], d, k)
    ensures !IsSet(last) || last.name != c.name ==> Grew(c, d, (init + [last])[k..])
    ensures IsSet(last) ==> Grew(Update(c, last), d, (init + [last])[k..])
  {
    var changes := init + [last];
    assert changes[k..] == init[k..] + [last];
    assert changes[k..][..|init[k..]|] == init[k..];
    if k > 0 { assert changes[..k - 1] == init[..k - 1]; }
  }

  /** After any history a column is a declaration that still stands, with the nullability, the default
      and the value set last given to its name since it was declared, and nothing else changed. */
  lemma {:induction false} ColumnsAreAsLastSet(cols: seq<Column>, changes: seq<Change>, c: Column)
    requires c in ApplyAll(cols, changes)
    ensures exists d: Column, k: nat :: Stems(cols, changes, d, k) && Grew(c, d, changes[k..])
  {
    if changes == [] {
      assert Stems(cols, changes, c, 0) && Grew(c, c, changes[0..]);
    } else {
      hide Stems, Grew, Has;
      var init, last := changes[..|changes| - 1], changes[|changes| - 1];
      assert changes == init + [last];
      var before := ApplyAll(cols, init);
      if last.Add? && c !in before {
        assert c == last.column && !Has(before, c.name);
        JustAdded(cols, init, c);
      } else {
        var was: Column;
        if IsSet(last) {
          var i :| 0 <= i < |before| && c == Update(before[i], last);
          was := before[i];
          assert was in before;
        } else {
          was := c;
        }
        ColumnsAreAsLastSet(cols, init, was);
        var d: Column, k: nat :| Stems(cols, init, d, k) && Grew(was, d, init[k..]);
        GrewName(was, d, init[k..]);
        StemsNext(cols, init, last, was, d, k);
      }
    }
  }

  lemma GrewName(c: Column, d: Column, since: seq<Change>)
    requires Grew(c, d, since)
    ensures c.name == d.name
  {}

  lemma JustAdded(cols: seq<Column>, init: seq<Change>, c: Column)
    requires !Has(ApplyAll(cols, init), c.name)
    ensures Stems(cols, init + [Add(c)], c, |init| + 1) && Grew(c, c, (init + [Add(c)])[|init| + 1..])
  {
    assert (init + [Add(c)])[..|init|] == init;
  }

  /** A name added again after a drop goes to the end; one already there keeps its place and its
      first declaration. */
  lemma ReAddGoesLast(cols: seq<Column>, col: Column)
    ensures Apply(Apply(cols, Drop(col.name)), Add(col)) == Without(cols, col.name) + [col]
    ensures Has(cols, col.name) ==> Apply(cols, Add(col)) == cols
  {
    HasAfter(cols, Drop(col.name), col.name);
  }
}
