/** What a whole file does to the table, against its statements in the order they are written. */
module SchemaOrder {
  import opened Basics
  import opened SchemaTable
  import opened SchemaFile
  import opened SchemaBuild

  // ----- the whole table -----

  /** An ALTER in the order the script reads it, its drops left among its additions. */
  function Moves(parts: seq<Change>): (r: seq<Change>)
    ensures forall c :: c in r <==> c in parts && (c.Add? || c.Drop?)
  {
    if parts == [] then []
    else
      var last := parts[|parts| - 1];
      Moves(parts[..|parts| - 1]) + if last.Add? || last.Drop? then [last] else []
  }

  function Tidy(s: Statement): Statement {
    if s.Alter? then Alter(Moves(s.parts) + Sets(s.parts)) else Alter([])
  }

  function Tidied(file: seq<Statement>): (r: seq<Statement>)
    ensures |r| == |file| && forall i :: 0 <= i < |file| ==> r[i] == Tidy(file[i])
  {
    seq(|file|, i requires 0 <= i < |file| => Tidy(file[i]))
  }

  /** All the changes of a file in the order the script reads them: first the CREATEs. */
  function ReadOrder(file: seq<Statement>): seq<Change> {
    Created(file, |file|) + Flat(Tidied(file), |file|)
  }

  /** A file is tidy when that is the order it is written in. */
  predicate IsTidy(file: seq<Statement>) {
    (forall i, j :: 0 <= i < j < |file| && file[j].Create? ==> file[i].Create?) &&
    forall i :: 0 <= i < |file| && file[i].Alter? ==> file[i].parts == Moves(file[i].parts) + Sets(file[i].parts)
  }

  lemma {:induction false} MovesWord(parts: seq<Change>, name: string)
    ensures LastWord(Moves(parts), name) == LastWord(parts, name)
  {
    if parts == [] {
    } else {
      var last := parts[|parts| - 1];
      MovesWord(parts[..|parts| - 1], name);
      LastWordConcat(Moves(parts[..|parts| - 1]), [last], name);
      assert [last][..0] == [];
      assert Moves(parts[..|parts| - 1]) + [] == Moves(parts[..|parts| - 1]);
    }
  }

  lemma TidyWord(s: Statement, name: string)
    requires s.Alter?
    ensures LastWord(Tidy(s).parts, name) == LastWord(s.parts, name)
    ensures Drop(name) in Tidy(s).parts <==> Drop(name) in s.parts
  {
    MovesWord(s.parts, name);
    LastWordConcat(Moves(s.parts), Sets(s.parts), name);
    NoWord(Sets(s.parts), name);
  }

  lemma DropAlone(c: Change)
    requires c.Drop?
    ensures Drops([c], false) == []
  {
    assert [c][1..] == [];
  }

  lemma {:induction false} MovesDrops(parts: seq<Change>)
    ensures Drops(Moves(parts), false) == Of(parts, 0)
  {
    if parts == [] {
    } else {
      hide Drops;
      var init, last := parts[..|parts| - 1], parts[|parts| - 1];
      MovesDrops(init);
      DropsConcat(Moves(init), [last], false);
      if last.Drop? { DropAlone(last); } else { NoDrops([last]); }
      assert Moves(init) + [] == Moves(init) && Of(init, 0) + [] == Of(init, 0);
    }
  }

  lemma TidyDrops(parts: seq<Change>)
    ensures Drops(Moves(parts) + Sets(parts), false) == Read(parts)
  {
    hide Moves, Sets, Of, Drops;
    MovesDrops(parts);
    DropsConcat(Moves(parts), Sets(parts), false);
    NoDrops(Sets(parts));
  }

  lemma TidyStatement(s: Statement)
    ensures Drops(Changes(Tidy(s)), false) == if s.Alter? then Read(s.parts) else []
  {
    hide Read, Moves, Sets, Drops;
    if s.Alter? { TidyDrops(s.parts); } else { NoDrops([]); }
  }

  lemma {:induction false} TidiedDrops(file: seq<Statement>, n: nat)
    requires n <= |file|
    ensures Drops(Flat(Tidied(file), n), false) == Altered(file, n)
  {
    hide Read, Drops, Tidy;
    if n == 0 {
      NoDrops([]);
    } else {
      TidiedDrops(file, n - 1);
      DropsConcat(Flat(Tidied(file), n - 1), Changes(Tidy(file[n - 1])), false);
      TidyStatement(file[n - 1]);
    }
  }

  /** Without its drops the read order is what the script applies before it drops anything. */
  lemma ReadWithoutDrops(file: seq<Statement>)
    ensures Drops(ReadOrder(file), false) == Created(file, |file|) + Altered(file, |file|)
  {
    var n := |file|;
    TidiedDrops(file, n);
    DropsConcat(Created(file, n), Flat(Tidied(file), n), false);
    CreatedAdds(file, n);
    NoDrops(Created(file, n));
  }

  lemma {:induction false} CreatedAdds(file: seq<Statement>, n: nat)
    requires n <= |file|
    ensures forall c :: c in Created(file, n) ==> c.Add?
  {
    if n == 0 {
    } else {
      CreatedAdds(file, n - 1);
    }
  }

  lemma DroppedNames(file: seq<Statement>, name: string)
    ensures name in Names(Dropped(file, |file|)) <==> FinallyDropped(file, name)
  {
    DroppedAre(file, |file|);
    assert name in Names(Dropped(file, |file|)) <==> Drop(name) in Dropped(file, |file|);
  }

  /** What the script makes of the file: what it reads, without the names finally dropped. */
  lemma ReplayWithout(t: Entry, file: seq<Statement>)
    requires KeepsTable(file) && (t.Some? || Mentions(file, |file|))
    ensures Replay(t, file) ==
            Some(WithoutAll(ApplyAll(Columns(t), Created(file, |file|) + Altered(file, |file|)), Names(Dropped(file, |file|))))
  {
    hide Replay;
    var n := |file|;
    ReplayIs(t, file);
    DroppedAre(file, n);
    ApplyAllConcat(Columns(t), Created(file, n) + Altered(file, n), Dropped(file, n));
    DropsOnly(ApplyAll(Columns(t), Created(file, n) + Altered(file, n)), Dropped(file, n));
  }

  lemma TidiedAdds(file: seq<Statement>, i: nat, name: string)
    ensures AddsAfter(Tidied(file), i, name) <==> AddsAfter(file, i, name)
  {
    forall j | 0 <= j < |file| ensures Adds(Tidied(file)[j], name) <==> Adds(file[j], name) {
      assert file[j].Alter? ==> forall c :: c in Tidy(file[j]).parts <==> c in Moves(file[j].parts) || c in Sets(file[j].parts);
    }
  }

  lemma ReadOrderDrops(file: seq<Statement>, name: string)
    ensures Drop(name) in ReadOrder(file) <==> DropsIn(Tidied(file), |file|, name)
    ensures Drop(name) in ReadOrder(file) <==> DropsIn(file, |file|, name)
  {
    CreatedAdds(file, |file|);
    FlatAre(Tidied(file), |file|);
    forall i | 0 <= i < |file| ensures Drop(name) in Tidy(file[i]).parts <==> file[i].Alter? && Drop(name) in file[i].parts {
      if file[i].Alter? { TidyWord(file[i], name); }
    }
  }

  /** A name that is dropped, and not added for good after that, is finally dropped. */
  lemma NotReAddedIsFinal(file: seq<Statement>, name: string)
    requires Drop(name) in ReadOrder(file) && LastWord(ReadOrder(file), name) != Adding
    ensures FinallyDropped(file, name) && LastWord(ReadOrder(file), name) == Dropping
  {
    hide LastWord;
    ReadOrderDrops(file, name);
    var i := LastDropping(Tidied(file), |file|, name);
    WrittenWord(Tidied(file), i, name);
    LastWordConcat(Created(file, |file|), Flat(Tidied(file), |file|), name);
    TidiedAdds(file, i, name);
    if file[i].Alter? { TidyWord(file[i], name); }
  }

  lemma FinalIsDropped(file: seq<Statement>, name: string)
    requires FinallyDropped(file, name)
    ensures Drop(name) in ReadOrder(file)
  {
    ReadOrderDrops(file, name);
  }

  /** The name is dropped and, after its last drop, added again. */
  ghost predicate ReAdds(changes: seq<Change>, name: string) {
    Drop(name) in changes && exists k: nat :: AddsForGood(changes, k, name)
  }

  /** The changes one by one, in the order they are read. */
  function InReadOrder(t: Entry, file: seq<Statement>): Entry {
    if t.None? && !Mentions(file, |file|) then None else Some(ApplyAll(Columns(t), ReadOrder(file)))
  }

  /** A history that adds nothing again leaves what its part without drops leaves, but for the names
      it drops. */
  lemma NeverReAdded(cols: seq<Column>, order: seq<Change>)
    requires forall name :: !ReAdds(order, name)
    ensures ApplyAll(cols, order) == WithoutAll(ApplyAll(cols, Drops(order, false)), Names(order))
  {
    hide ApplyAll, Drops, LastWord, AddsForGood;
    var after := ApplyAll(cols, order);
    DropsAside(cols, order, Names(order));
    forall c | c in after ensures c.name !in Names(order) {
      if c.name in Names(order) {
        assert Drop(c.name) in order;
        AddingIsForGood(order, c.name);
        NoWord(order, c.name);
        assert !ReAdds(order, c.name) && WordOf(Drop(c.name), c.name) == Dropping;
        LastWordDecides(cols, order, c.name);
        HasColumn(after, c);
      }
    }
    WithoutAllIsAll(after, Names(order));
  }

  lemma HasColumn(cols: seq<Column>, c: Column)
    requires c in cols
    ensures Has(cols, c.name)
  {
    var i :| 0 <= i < |cols| && cols[i] == c;
  }

  lemma InReadOrderIs(t: Entry, file: seq<Statement>)
    requires t.Some?
    ensures InReadOrder(t, file) == Some(ApplyAll(t.value, ReadOrder(file)))
  {}

  lemma Agrees(t: Entry, file: seq<Statement>)
    requires KeepsTable(file) && forall name :: !ReAdds(ReadOrder(file), name)
    ensures Replay(t, file) == InReadOrder(t, file)
  {
    hide ReadOrder, Replay, ApplyAll, Drops, LastWord, AddsForGood;
    ReplayIs(t, file);
    if t.Some? || Mentions(file, |file|) {
      var order, names := ReadOrder(file), Names(ReadOrder(file));
      forall name ensures name in names <==> name in Names(Dropped(file, |file|)) {
        DroppedNames(file, name);
        AddingIsForGood(order, name);
        assert name in names <==> Drop(name) in order;
        assert !ReAdds(order, name);
        if name in names { NotReAddedIsFinal(file, name); }
        if FinallyDropped(file, name) { FinalIsDropped(file, name); }
      }
      assert names == Names(Dropped(file, |file|));
      ReplayWithout(t, file);
      ReadWithoutDrops(file);
      NeverReAdded(Columns(t), order);
    }
  }

  // A column tells by its type which declaration it comes from: no later change sets that

  function Types(changes: seq<Change>): set<string> {
    set c | c in changes && c.Add? :: c.column.pgType
  }

  predicate Typed(cols: seq<Column>, name: string, types: set<string>) {
    forall c :: c in cols && c.name == name ==> c.pgType in types
  }

  lemma TypedAfter(cols: seq<Column>, change: Change, name: string, types: set<string>)
    requires Typed(cols, name, types) && (change.Add? && change.column.name == name ==> Has(cols, name) || change.column.pgType in types)
    ensures Typed(Apply(cols, change), name, types)
  {
    if IsSet(change) {
      forall c | c in Apply(cols, change) && c.name == name ensures c.pgType in types {
        var i :| 0 <= i < |cols| && c == Update(cols[i], change);
        assert cols[i] in cols;
      }
    }
  }

  /** Without drops a column that is there stays the one it was. */
  lemma {:induction false} FirstStands(cols: seq<Column>, changes: seq<Change>, name: string, types: set<string>)
    requires Has(cols, name) && Typed(cols, name, types) && forall c :: c in changes ==> !c.Drop?
    ensures Has(ApplyAll(cols, changes), name) && Typed(ApplyAll(cols, changes), name, types)
  {
    hide Has, Typed, Apply;
    if changes == [] {
    } else {
      var init, last := changes[..|changes| - 1], changes[|changes| - 1];
      assert changes == init + [last];
      FirstStands(cols, init, name, types);
      TypedAfter(ApplyAll(cols, init), last, name, types);
      HasAfter(ApplyAll(cols, init), last, name);
    }
  }

  /** Once the name has been dropped, the column is one of those added. */
  lemma {:induction false} DroppedIsNew(cols: seq<Column>, changes: seq<Change>, name: string)
    requires Drop(name) in changes
    ensures Typed(ApplyAll(cols, changes), name, Types(changes))
  {
    hide Has;
    var init, last := changes[..|changes| - 1], changes[|changes| - 1];
    assert changes == init + [last];
    if last == Drop(name) {
    } else {
      DroppedIsNew(cols, init, name);
      assert Types(init) <= Types(changes);
      assert last.Add? ==> last.column.pgType in Types(changes);
      TypedAfter(ApplyAll(cols, init), last, name, Types(changes));
    }
  }

  /** A table on which a history that adds a name again differs from any changes without drops. */
  lemma Differs(order: seq<Change>, read: seq<Change>, name: string) returns (cols: seq<Column>, c: Column)
    requires ReAdds(order, name) && forall d :: d in read ==> !d.Drop?
    ensures c in ApplyAll(cols, order) && c !in ApplyAll(cols, read)
  {
    hide ApplyAll, LastWord, AddsForGood;
    var ty := FreshText(Types(order));
    cols := [Column(name, ty, false, false, [])];
    AddingIsForGood(order, name);
    LastWordDecides(cols, order, name);
    DroppedIsNew(cols, order, name);
    assert Has(cols, name) by { assert cols[0].name == name; }
    FirstStands(cols, read, name, {ty});
    var i :| 0 <= i < |ApplyAll(cols, order)| && ApplyAll(cols, order)[i].name == name;
    c := ApplyAll(cols, order)[i];
    assert c in ApplyAll(cols, order) && c.pgType != ty;
  }

  /** A table on which the script differs from a history that adds a name again. */
  lemma ReplayDiffers(file: seq<Statement>, order: seq<Change>, name: string) returns (t: Entry)
    requires KeepsTable(file) && ReAdds(order, name)
    ensures t.Some? && Replay(t, file) != Some(ApplyAll(t.value, order))
  {
    hide Replay, ApplyAll, ReAdds;
    var n := |file|;
    forall c | c in Created(file, n) + Altered(file, n) ensures !c.Drop? { ReadAre(file, n, c); }
    var cols, c := Differs(order, Created(file, n) + Altered(file, n), name);
    t := Some(cols);
    ReplayWithout(t, file);
  }

  /** For every table the script makes of a file what its changes do one by one, in the order it
      reads them, if and only if no name is dropped and added again after its last drop. */
  lemma ReadOrderMattersIff(file: seq<Statement>)
    requires KeepsTable(file)
    ensures (forall t :: Replay(t, file) == InReadOrder(t, file)) <==> forall name :: !ReAdds(ReadOrder(file), name)
  {
    hide ReadOrder, Replay, InReadOrder, ReAdds;
    if forall name :: !ReAdds(ReadOrder(file), name) {
      forall t ensures Replay(t, file) == InReadOrder(t, file) { Agrees(t, file); }
    } else {
      var name :| ReAdds(ReadOrder(file), name);
      var t := ReplayDiffers(file, ReadOrder(file), name);
      assert InReadOrder(t, file) == Some(ApplyAll(t.value, ReadOrder(file))) by { InReadOrderIs(t, file); }
    }
  }

  // ----- tidy files -----

  lemma {:induction false} NothingTidied(file: seq<Statement>, n: nat)
    requires n <= |file| && forall i :: 0 <= i < n ==> file[i].Create?
    ensures Flat(Tidied(file), n) == []
  {
    if n == 0 {
    } else {
      NothingTidied(file, n - 1);
    }
  }

  lemma TidyChanges(file: seq<Statement>, i: nat)
    requires i < |file| && IsTidy(file)
    ensures Changes(Tidied(file)[i]) == if file[i].Create? then [] else Changes(file[i])
    ensures file[i].Create? ==> forall j :: 0 <= j < i ==> file[j].Create?
  {
    hide Moves, Sets;
  }

  lemma CreateChanges(s: Statement)
    requires s.Create?
    ensures Changes(s) == Added(s.columns)
  {}

  lemma {:induction false} TidyFlat(file: seq<Statement>, n: nat)
    requires n <= |file| && IsTidy(file)
    ensures Flat(file, n) == Created(file, n) + Flat(Tidied(file), n)
  {
    hide IsTidy, Changes, Added, Flat, Created;
    if n == 0 {
      Start(file);
      Start(Tidied(file));
    } else {
      TidyFlat(file, n - 1);
      Next(file, n);
      Next(Tidied(file), n);
      TidyChanges(file, n - 1);
      if file[n - 1].Create? {
        NothingTidied(file, n - 1);
        CreateChanges(file[n - 1]);
        Regroup(Created(file, n - 1), [], Changes(file[n - 1]));
      } else {
        Regroup(Created(file, n - 1), Flat(Tidied(file), n - 1), Changes(file[n - 1]));
      }
    }
  }

  lemma Regroup(a: seq<Change>, b: seq<Change>, c: seq<Change>)
    ensures (a + b) + c == a + (b + c)
    ensures b == [] ==> (a + b) + c == (a + c) + (b + [])
  {}

  lemma Start(file: seq<Statement>)
    ensures Flat(file, 0) == [] == Created(file, 0)
  {}

  lemma Next(file: seq<Statement>, n: nat)
    requires 0 < n <= |file|
    ensures Flat(file, n) == Flat(file, n - 1) + Changes(file[n - 1])
    ensures Created(file, n) == if file[n - 1].Create? then Created(file, n - 1) + Added(file[n - 1].columns) else Created(file, n - 1)
  {
    assert Created(file, n - 1) + [] == Created(file, n - 1);
  }

  lemma TidyIsWritten(t: Entry, file: seq<Statement>)
    requires KeepsTable(file) && IsTidy(file)
    ensures ReadOrder(file) == Flat(file, |file|)
    ensures InReadOrder(t, file) == Written(t, file, |file|)
  {
    hide IsTidy, Flat, Created, Tidied, Written, ApplyAll, Mentions;
    TidyFlat(file, |file|);
    WrittenIs(t, file, |file|);
  }

  // ----- any file that keeps the table -----

  /** The empty table built twice without drops, as the file is written and as it is read: the same
      columns, but for the names the file drops. */
  predicate BuildsAlike(file: seq<Statement>) {
    var flat := Flat(file, |file|);
    WithoutAll(ApplyAll([], Drops(flat, false)), Names(flat)) ==
    WithoutAll(ApplyAll([], Created(file, |file|) + Altered(file, |file|)), Names(flat))
  }

  lemma TidyBuildsAlike(file: seq<Statement>)
    requires KeepsTable(file) && IsTidy(file)
    ensures BuildsAlike(file)
  {
    hide IsTidy, ReadOrder;
    TidyIsWritten(None, file);
    ReadWithoutDrops(file);
  }

  lemma FlatDrops(file: seq<Statement>, name: string)
    ensures name in Names(Flat(file, |file|)) <==> DropsIn(file, |file|, name)
  {
    FlatAre(file, |file|);
    assert name in Names(Flat(file, |file|)) <==> Drop(name) in Flat(file, |file|);
    forall i | 0 <= i < |file| && Drop(name) in Changes(file[i]) ensures file[i].Alter? {}
  }

  /** Where no name is added again, what the file drops is what the script drops. */
  lemma FlatIsFinal(file: seq<Statement>)
    requires forall name :: !ReAdds(Flat(file, |file|), name)
    ensures Names(Flat(file, |file|)) == Names(Dropped(file, |file|))
  {
    hide Flat, Dropped, LastWord, AddsForGood, Names;
    var flat := Flat(file, |file|);
    forall name ensures name in Names(flat) <==> name in Names(Dropped(file, |file|)) {
      FlatDrops(file, name);
      DroppedNames(file, name);
      if name in Names(flat) {
        var i := LastDropping(file, |file|, name);
        WrittenWord(file, i, name);
        AddingIsForGood(flat, name);
        DroppedInFlat(file, name);
        assert !ReAdds(flat, name);
      }
    }
  }

  lemma DroppedInFlat(file: seq<Statement>, name: string)
    requires DropsIn(file, |file|, name)
    ensures Drop(name) in Flat(file, |file|)
  {
    FlatAre(file, |file|);
  }

  lemma NoDropsLeft(file: seq<Statement>)
    ensures forall c :: c in Drops(Flat(file, |file|), false) ==> !c.Drop?
    ensures forall c :: c in Created(file, |file|) + Altered(file, |file|) ==> !c.Drop?
  {
    hide Drops, Flat, Created, Altered;
    forall c | c in Created(file, |file|) + Altered(file, |file|) ensures !c.Drop? { ReadAre(file, |file|, c); }
  }

  /** Where no name is added again, the script and the written order leave the same of a table if and
      only if they build it alike. */
  lemma SameWithoutDrops(cols: seq<Column>, file: seq<Statement>)
    requires KeepsTable(file) && forall name :: !ReAdds(Flat(file, |file|), name)
    ensures BuildsAlike(file) || cols == [] ==>
              (Replay(Some(cols), file) == Some(ApplyAll(cols, Flat(file, |file|))) <==> BuildsAlike(file))
  {
    hide Replay, KeepsTable, Flat, ApplyAll, WithoutAll, Drops, ReAdds, Created, Altered, Dropped, Names, Sets;
    var n := |file|;
    ReplayWithout(Some(cols), file);
    NeverReAdded(cols, Flat(file, n));
    FlatIsFinal(file);
    SameSets(file);
    NoDropsLeft(file);
    if BuildsAlike(file) {
      AlikeEverywhere(cols, Drops(Flat(file, n), false), Created(file, n) + Altered(file, n), Names(Flat(file, n)));
    }
  }

  lemma WrittenOnTable(cols: seq<Column>, file: seq<Statement>)
    requires KeepsTable(file)
    ensures Written(Some(cols), file, |file|) == Some(ApplyAll(cols, Flat(file, |file|)))
  {
    WrittenIs(Some(cols), file, |file|);
  }

  /** An entry without the table is as good as one with no columns. */
  lemma NoTableAlike(file: seq<Statement>)
    requires KeepsTable(file) && Replay(Some([]), file) == Written(Some([]), file, |file|)
    ensures Replay(None, file) == Written(None, file, |file|)
  {
    hide Replay, Written, Flat, Created, Altered, Dropped, ApplyAll, Mentions;
    ReplayIs(None, file);
    ReplayIs(Some([]), file);
    WrittenIs(None, file, |file|);
    WrittenIs(Some([]), file, |file|);
  }

  ghost predicate AddsNothingAgain(file: seq<Statement>) {
    forall name :: !ReAdds(Flat(file, |file|), name)
  }

  lemma KeptOrderMattersIff(file: seq<Statement>)
    requires KeepsTable(file)
    ensures (forall t :: Replay(t, file) == Written(t, file, |file|)) <==>
              AddsNothingAgain(file) && BuildsAlike(file)
  {
    hide Replay, KeepsTable, Flat, Written, ReAdds, BuildsAlike;
    var flat := Flat(file, |file|);
    if name :| ReAdds(flat, name) {
      var t := ReplayDiffers(file, flat, name);
      WrittenOnTable(t.value, file);
      assert Replay(t, file) != Written(t, file, |file|);
    } else {
      forall cols ensures BuildsAlike(file) || cols == [] ==>
          (Replay(Some(cols), file) == Written(Some(cols), file, |file|) <==> BuildsAlike(file)) {
        SameWithoutDrops(cols, file);
        WrittenOnTable(cols, file);
      }
      if BuildsAlike(file) {
        forall t ensures Replay(t, file) == Written(t, file, |file|) {
          if t.None? { NoTableAlike(file); } else { assert t == Some(t.value); }
        }
      } else {
        assert Replay(Some([]), file) != Written(Some([]), file, |file|);
      }
    }
  }

  // ----- tables dropped -----

  /** Statement `i` is the last that drops the table. */
  predicate LastTableDrop(file: seq<Statement>, i: nat) {
    i < |file| && file[i].DropTable? && forall j :: i < j < |file| ==> !file[j].DropTable?
  }

  predicate DeclaresAfter(file: seq<Statement>, i: nat) {
    exists j :: i < j < |file| && Declares(file[j])
  }

  /** Past its last drop the table is there exactly when something declares it, and has no column
      but those added since. */
  lemma {:induction false} WrittenAfterDrop(t: Entry, file: seq<Statement>, i: nat, n: nat, name: string)
    requires LastTableDrop(file, i) && i < n <= |file|
    ensures Written(t, file, n).Some? <==> exists j :: i < j < n && Declares(file[j])
    ensures Has(Columns(Written(t, file, n)), name) ==> AddsIn(file, n, name)
    decreases n
  {
    hide Has, ApplyAll;
    if n == i + 1 {
      NoColumns(name);
    } else {
      WrittenAfterDrop(t, file, i, n - 1, name);
      LastWordDecides(Columns(Written(t, file, n - 1)), Changes(file[n - 1]), name);
      NoWord(Changes(file[n - 1]), name);
    }
  }

  function AddedNames(file: seq<Statement>, n: nat): set<string>
    requires n <= |file|
  {
    set c | c in Flat(file, n) :: if c.Add? then c.column.name else c.name
  }

  /** A table on which the two differ, when something comes after the last drop. */
  lemma RecreatedDiffers(file: seq<Statement>, i: nat) returns (t: Entry)
    requires LastTableDrop(file, i) && DeclaresAfter(file, i)
    ensures Replay(t, file) != Written(t, file, |file|)
  {
    hide Has, ApplyAll, Replay;
    var n := |file|;
    var name := FreshText(AddedNames(file, n));
    t := Some([Column(name, "", false, false, [])]);
    WrittenAfterDrop(t, file, i, n, name);
    ReplayIs(t, file);
    if !TableDropped(file) {
      ReplayKeeps(file, name);
      NotNamed(file, name);
    } else {
      assert Replay(t, file) == None;
    }
  }

  lemma NotNamed(file: seq<Statement>, name: string)
    requires name !in AddedNames(file, |file|)
    ensures !AddsIn(file, |file|, name) && !DropsIn(file, |file|, name)
  {
    FlatAre(file, |file|);
    forall i, c | 0 <= i < |file| && c in Changes(file[i]) ensures WordOf(c, name) == Nothing {
      assert c in Flat(file, |file|);
    }
    forall i | 0 <= i < |file| && file[i].Alter? ensures Drop(name) !in file[i].parts {
      assert Drop(name) in file[i].parts ==> WordOf(Drop(name), name) == Nothing;
    }
  }

  lemma ReplayKeeps(file: seq<Statement>, name: string)
    requires name !in AddedNames(file, |file|) && !TableDropped(file)
    ensures Has(Columns(Replay(Some([Column(name, "", false, false, [])]), file)), name)
  {
    hide ApplyAll, Replay;
    var n := |file|;
    var cols, t := [Column(name, "", false, false, [])], Some([Column(name, "", false, false, [])]);
    var all := Created(file, n) + Altered(file, n) + Dropped(file, n);
    ReplayIs(t, file);
    NotNamed(file, name);
    forall c ensures c in Created(file, n) + Altered(file, n) <==> !c.Drop? && InFile(file, n, c) {
      ReadAre(file, n, c);
    }
    DroppedAre(file, n);
    NoWord(all, name);
    LastWordDecides(cols, all, name);
    assert cols[0].name == name;
  }

  /** A file that drops the table leaves every entry of the inventory as its statements in written
      order would, if and only if nothing after its last drop declares the table again. */
  lemma TableDropMattersIff(file: seq<Statement>, i: nat)
    requires LastTableDrop(file, i)
    ensures (forall t :: Replay(t, file) == Written(t, file, |file|)) <==> !DeclaresAfter(file, i)
  {
    hide Replay;
    if DeclaresAfter(file, i) {
      var t := RecreatedDiffers(file, i);
    } else {
      forall t ensures Replay(t, file) == Written(t, file, |file|) {
        WrittenAfterDrop(t, file, i, |file|, "");
        ReplayIs(t, file);
        assert !CreatesAfter(file, i);
      }
    }
  }

  /** The column is added for good after the table's last drop, where the script does not look: the
      table is not created again, or a drop of the column is final. */
  predicate LosesAfterDrop(file: seq<Statement>, i: nat, name: string) {
    LastWord(Since(file, |file|), name) == Adding && (!CreatesAfter(file, i) || FinallyDropped(file, name))
  }

  /** The table is created again, and a column from before its last drop stays. */
  predicate OutlivesDrop(t: Entry, file: seq<Statement>, i: nat, name: string) {
    && LastWord(Since(file, |file|), name) != Adding && CreatesAfter(file, i) && !FinallyDropped(file, name)
    && (Has(Columns(t), name) || AddsIn(file, |file|, name))
  }

  lemma {:induction false} SinceAdds(file: seq<Statement>, n: nat, name: string)
    requires n <= |file| && LastWord(Since(file, n), name) == Adding
    ensures AddsIn(file, n, name)
  {
    hide LastWord, Changes;
    NoWord([], name);
    LastWordConcat(Since(file, n - 1), Changes(file[n - 1]), name);
    NoWord(Changes(file[n - 1]), name);
    if LastWord(Changes(file[n - 1]), name) != Adding { SinceAdds(file, n - 1, name); }
  }

  /** In a file that drops the table, script and written order agree on a column being there if and
      only if it is neither lost after the last drop nor outlives it. */
  lemma PresenceAfterDropIff(t: Entry, file: seq<Statement>, i: nat, name: string)
    requires LastTableDrop(file, i)
    ensures (Has(Columns(Replay(t, file)), name) <==> Has(Columns(Written(t, file, |file|)), name)) <==>
              !LosesAfterDrop(file, i, name) && !OutlivesDrop(t, file, i, name)
  {
    hide Has, LastWord, Since, AddsIn, FinallyDropped, Replay, Written;
    ReplayHas(t, file, name);
    WrittenHas(t, file, |file|, name);
    assert TableDropped(file) <==> !CreatesAfter(file, i);
    if LastWord(Since(file, |file|), name) == Adding { SinceAdds(file, |file|, name); }
  }

  // ----- any file -----

  /** The file is one the script replays as it is written.  One that keeps the table adds no name
      again after its last drop and builds the empty table alike in both orders; one that drops the
      table says nothing of it after the last drop but that it is gone. */
  ghost predicate ReadsAsWritten(file: seq<Statement>) {
    if KeepsTable(file) then AddsNothingAgain(file) && BuildsAlike(file)
    else forall i: nat :: LastTableDrop(file, i) ==> !DeclaresAfter(file, i)
  }

  lemma {:induction false} LastDropOfTable(file: seq<Statement>, n: nat) returns (i: nat)
    requires n <= |file| && exists k :: 0 <= k < n && file[k].DropTable?
    requires forall j :: n <= j < |file| ==> !file[j].DropTable?
    ensures LastTableDrop(file, i)
  {
    if file[n - 1].DropTable? { i := n - 1; } else { i := LastDropOfTable(file, n - 1); }
  }

  /** For every file: the script makes of every entry what the statements in written order make of
      it, if and only if the file reads as it is written. */
  lemma WrittenOrderMattersIff(file: seq<Statement>)
    ensures (forall t :: Replay(t, file) == Written(t, file, |file|)) <==> ReadsAsWritten(file)
  {
    hide Replay, Written, AddsNothingAgain, BuildsAlike, DeclaresAfter;
    if KeepsTable(file) {
      KeptOrderMattersIff(file);
    } else {
      var i := LastDropOfTable(file, |file|);
      TableDropMattersIff(file, i);
      forall k: nat | LastTableDrop(file, k) ensures k == i {}
    }
  }

  // ----- where the script and the written order part -----

  const A := Column("a", "text", false, false, [])
  const A2 := Column("a", "int4", false, false, [])
  const B := Column("b", "text", false, false, [])

  lemma ApplyTwo(cols: seq<Column>, c: Change, d: Change)
    ensures ApplyAll(cols, []) == cols && ApplyAll(cols, [c]) == Apply(cols, c)
    ensures ApplyAll(cols, [c, d]) == Apply(Apply(cols, c), d)
  {
    assert [c][..0] == [] && [c, d][..1] == [c];
  }

  lemma OfTwo(c: Change, d: Change, kind: nat)
    ensures Of([c], kind) == if Kind(c) == kind then [c] else []
    ensures Of([c, d], kind) == Of([c], kind) + Of([d], kind)
  {
    assert [c][..0] == [] && [c, d][..1] == [c] && [d][..0] == [];
  }

  lemma ReadTwo(c: Change, d: Change)
    requires c.Drop? && d.Add?
    ensures Read([c]) == [] && Read([d]) == [d] && Read([c, d]) == [d]
  {
    hide Of;
    forall kind: nat ensures Of([c], kind) == (if kind == 4 then [c] else []) && Of([d], kind) == (if kind == 0 then [d] else []) {
      OfTwo(c, d, kind);
      OfTwo(d, c, kind);
    }
    OfTwo(c, d, 0);
    OfTwo(c, d, 1);
    OfTwo(c, d, 2);
    OfTwo(c, d, 3);
  }

  lemma OneStatement(t: Entry, file: seq<Statement>)
    requires |file| == 1
    ensures Written(t, file, 1) == Step(t, file[0])
  {
    assert Written(t, file, 0) == t;
  }

  lemma TwoStatements(t: Entry, file: seq<Statement>)
    requires |file| == 2
    ensures Written(t, file, 2) == Step(Step(t, file[0]), file[1])
  {
    assert Written(t, file, 0) == t;
    assert Written(t, file, 1) == Step(t, file[0]);
  }

  /** What one file of two ALTERs comes to. */
  lemma TwoAlters(t: Entry, file: seq<Statement>)
    requires |file| <= 2 && t.Some? && forall i :: 0 <= i < |file| ==> file[i].Alter?
    ensures |file| == 1 ==> Replay(t, file) == Some(ApplyAll(ApplyAll(t.value, Read(file[0].parts)), FinalDrops(file, 0, file[0].parts)))
    ensures |file| == 2 ==>
              var read := ApplyAll(ApplyAll(t.value, Read(file[0].parts)), Read(file[1].parts));
              Replay(t, file) == Some(ApplyAll(ApplyAll(read, FinalDrops(file, 0, file[0].parts)), FinalDrops(file, 1, file[1].parts)))
  {
    hide ApplyAll, Read, FinalDrops;
    assert AfterCreates(t, file, 0) == t;
    if |file| >= 1 { assert AfterCreates(t, file, 1) == t; }
    assert AfterAlters(t, file, 0) == t;
    var read := AfterAlters(t, file, |file|);
    assert AfterDrops(read, file, 0) == read;
    assert !TableDropped(file);
    if |file| == 2 {
      assert AfterAlters(t, file, 1) == Some(ApplyAll(t.value, Read(file[0].parts)));
      assert AfterDrops(read, file, 1) == Some(ApplyAll(read.value, FinalDrops(file, 0, file[0].parts)));
    }
  }

  lemma FinalTwo(file: seq<Statement>, i: nat, c: Change, d: Change)
    requires c.Drop? && d.Add?
    ensures FinalDrops(file, i, [c]) == if AddsAfter(file, i, c.name) then [] else [c]
    ensures FinalDrops(file, i, [d]) == [] && FinalDrops(file, i, [c, d]) == FinalDrops(file, i, [c])
  {
    hide AddsAfter;
    assert [c][..0] == [] && [d][..0] == [] && [c, d][..1] == [c];
    assert FinalDrops(file, i, [c]) + [] == FinalDrops(file, i, [c]);
  }

  lemma SmallTables()
    ensures Apply([], Add(A)) == [A] && Apply([], Add(A2)) == [A2] && Apply([], Add(B)) == [B]
    ensures Apply([A], Add(B)) == [A, B] && Apply([B], Add(A)) == [B, A] && Apply([B], Add(A2)) == [B, A2]
  {
    assert !Has([A], "b") && !Has([B], "a") && !Has([], "a") && !Has([], "b");
  }

  lemma SmallChanges()
    ensures Apply([A], Add(A2)) == [A] && Apply([A, B], Add(A2)) == [A, B]
    ensures Apply([A], Drop("a")) == [] && Apply([A, B], Drop("a")) == [B]
  {
    assert [A, B][0].name == "a" && [A][0].name == "a";
    assert [A, B][1..] == [B] && [B][1..] == [] && Without([B], "a") == [B];
  }

  /** One ALTER that drops a column and adds it again: the script loses it. */
  lemma LostInOneAlter()
    ensures var file := [Alter([Drop("a"), Add(A2)])];
            && Written(Some([A]), file, 1) == Some([A2])
            && Replay(Some([A]), file) == Some([]) && LosesReAdd(file, "a")
  {
    hide Replay, Written, ApplyAll, Apply, Read, FinalDrops;
    var parts := [Drop("a"), Add(A2)];
    var file := [Alter(parts)];
    SmallTables();
    SmallChanges();
    OneStatement(Some([A]), file);
    ApplyTwo([A], Drop("a"), Add(A2));
    ReadTwo(Drop("a"), Add(A2));
    TwoAlters(Some([A]), file);
    FinalTwo(file, 0, Drop("a"), Add(A2));
    ApplyTwo([A], Add(A2), Drop("a"));
    ApplyTwo([A], Drop("a"), Drop("a"));
    assert LastWord(parts, "a") == Adding && LosesReAddAt(file, 0, "a");
  }

  /** An ALTER that only sets an attribute makes the inventory have the table, with no columns. */
  lemma SetMakesTable()
    ensures Replay(None, [Alter([SetNotNull("a", true)])]) == Some([])
  {
    hide Replay, ApplyAll, Apply, Read, FinalDrops;
    var c := SetNotNull("a", true);
    var file := [Alter([c])];
    assert c in file[0].parts && Declares(file[0]) && Mentions(file, 1);
    ReplayIs(None, file);
    ReadSet(c);
    assert Created(file, 0) == [] && Altered(file, 0) == [] && Dropped(file, 0) == [];
    assert Created(file, 1) == [] && Altered(file, 1) == [c];
    assert FinalDrops(file, 0, [c]) == [] by { NoFinalDrop(file, c); }
    assert [] + [c] + [] == [c];
    ApplyTwo([], c, c);
    assert Apply([], c) == [] by { SetNothing(c); }
  }

  lemma ReadSet(c: Change)
    requires c.SetNotNull?
    ensures Read([c]) == [c]
  {
    hide Of;
    OfTwo(c, c, 0);
    OfTwo(c, c, 1);
    OfTwo(c, c, 2);
    OfTwo(c, c, 3);
  }

  lemma NoFinalDrop(file: seq<Statement>, c: Change)
    requires !c.Drop?
    ensures FinalDrops(file, 0, [c]) == []
  {
    assert [c][..0] == [];
  }

  lemma SetNothing(c: Change)
    requires IsSet(c)
    ensures Apply([], c) == []
  {}

  const MOVED: seq<Statement> := [Alter([Drop("a")]), Alter([Add(A2)])]

  lemma StaleWritten()
    ensures Written(Some([A, B]), MOVED, 2) == Some([B, A2]) && ReAdds(Flat(MOVED, 2), "a")
  {
    hide Written, ApplyAll, Apply;
    SmallTables();
    SmallChanges();
    TwoStatements(Some([A, B]), MOVED);
    ApplyTwo([A, B], Drop("a"), Drop("a"));
    ApplyTwo([B], Add(A2), Add(A2));
    var flat := [Drop("a"), Add(A2)];
    assert Flat(MOVED, 0) == [] && Flat(MOVED, 1) == [Drop("a")] && Flat(MOVED, 2) == flat;
    assert flat[0] == Drop("a") && AddsForGood(flat, 1, "a");
  }

  /** Two ALTERs that do the same: the script keeps the old column, where it was. */
  lemma StaleReAdd()
    ensures Written(Some([A, B]), MOVED, 2) == Some([B, A2]) && Replay(Some([A, B]), MOVED) == Some([A, B])
    ensures ReAdds(Flat(MOVED, 2), "a")
  {
    hide Replay, Written, ApplyAll, Apply, Read, FinalDrops;
    StaleWritten();
    SmallTables();
    SmallChanges();
    ReadTwo(Drop("a"), Add(A2));
    TwoAlters(Some([A, B]), MOVED);
    FinalTwo(MOVED, 0, Drop("a"), Add(A2));
    FinalTwo(MOVED, 1, Drop("a"), Add(A2));
    assert [Add(A2)][0] == Add(A2) && Adds(MOVED[1], "a") && AddsAfter(MOVED, 0, "a");
    ApplyTwo([A, B], Add(A2), Add(A2));
  }

  lemma TwoPhases(file: seq<Statement>)
    requires |file| == 2 && file[1].Create?
    ensures Created(file, 2) == (if file[0].Create? then Added(file[0].columns) else []) + Added(file[1].columns)
    ensures Altered(file, 2) == if file[0].Alter? then Read(file[0].parts) else []
    ensures Dropped(file, 2) == if file[0].Alter? then FinalDrops(file, 0, file[0].parts) else []
  {
    hide Read, FinalDrops;
    assert Created(file, 0) == [] && Altered(file, 0) == [] && Dropped(file, 0) == [];
    assert Created(file, 1) == if file[0].Create? then Added(file[0].columns) else [];
    assert Altered(file, 1) == if file[0].Alter? then Read(file[0].parts) else [];
    assert Dropped(file, 1) == if file[0].Alter? then FinalDrops(file, 0, file[0].parts) else [];
  }

  /** A table dropped and created again: the script keeps its old columns. */
  lemma RecreatedKeepsOld()
    ensures var file := [DropTable, Create([B])];
            && Written(Some([A]), file, 2) == Some([B]) && Replay(Some([A]), file) == Some([A, B])
            && LastTableDrop(file, 0) && DeclaresAfter(file, 0)
  {
    hide Replay, Written, ApplyAll, Apply, Created, Altered, Dropped;
    var file := [DropTable, Create([B])];
    SmallTables();
    SmallChanges();
    assert Added([B]) == [Add(B)];
    TwoStatements(Some([A]), file);
    ApplyTwo([], Add(B), Add(B));
    ApplyTwo([A], Add(B), Add(B));
    ReplayIs(Some([A]), file);
    TwoPhases(file);
    assert [] + [Add(B)] + [] + [] == [Add(B)];
    assert file[1].Create? && CreatesAfter(file, 0) && Declares(file[1]);
  }

  /** A CREATE after an ALTER is read before it: the columns come in another order. */
  lemma CreateIsReadFirst()
    ensures var file := [Alter([Add(A)]), Create([B])];
            && Written(None, file, 2) == Some([A, B]) && Replay(None, file) == Some([B, A])
            && KeepsTable(file) && AddsNothingAgain(file) && !BuildsAlike(file)
  {
    hide Replay, Written, ApplyAll, Apply, Created, Altered, Dropped, Read, FinalDrops, Flat, BuildsAlike;
    var file := [Alter([Add(A)]), Create([B])];
    SmallTables();
    SmallChanges();
    assert Added([B]) == [Add(B)];
    assert Add(A) in file[0].parts && Declares(file[0]);
    assert Declares(file[1]) && Mentions(file, 2);
    TwoStatements(None, file);
    ApplyTwo([], Add(A), Add(A));
    ApplyTwo([A], Add(B), Add(B));
    ReplayIs(None, file);
    TwoPhases(file);
    ReadTwo(Drop("a"), Add(A));
    FinalTwo(file, 0, Drop("a"), Add(A));
    assert [] + [Add(B)] + [Add(A)] + [] == [Add(B), Add(A)];
    ApplyTwo([], Add(B), Add(A));
    FlatAre(file, 2);
    assert forall name :: Drop(name) !in Flat(file, 2);
    assert AddsNothingAgain(file);
    KeptOrderMattersIff(file);
  }
}
