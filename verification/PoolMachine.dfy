/** How the code the gate reads runs.

    The machine keeps every environment record that was ever created and may, at any moment,
    take any step any live scope could take.  That covers every order of statements, every
    branch and loop count, deferred route handlers and interleaved requests. */
module PoolMachine {
  import opened Basics
  import opened PoolAst
  import opened PoolGate

  /** What a name can hold: the raw pool, a transaction or connection opened on it, something
      waiting for `.execute(cb)`, a query under construction, a raw statement with the tables it
      names, a text with its first word and the tables it names, or anything else. */
  datatype Value =
    | Plain
    | RawPool
    | Txn
    | Opener
    | Query
    | Stmt(tables: seq<string>)
    | Text(word: string, tables: seq<string>)

  predicate Says(v: Value) {
    v.Stmt? || v.Text?
  }

  /** The conditional expressions that take their first branch. */
  type Branches = set<Id>

  predicate Handle(v: Value) {
    v.RawPool? || v.Txn?
  }

  /** An environment record: the scope it was created for, the record around it, its values. */
  datatype Frame = Frame(scope: Id, up: Option<nat>, vals: map<string, Value>)

  /** A table is touched on the raw pool; or the pool is handed to code nobody can find. */
  datatype Event = Touches(call: Id, table: string) | Lost(call: Id)

  datatype State = State(frames: seq<Frame>, log: seq<Event>)

  datatype Action =
    | Load(file: Id)                              // a module is instantiated
    | Enter(f: nat, n: Id)                        // a block, loop or catch clause is entered
    | Init(f: nat, d: Id, yes: Branches)          // `const d = e` runs
    | Receive(f: nat, d: Id, v: Value)            // `d` gets its value from code outside the model
    | Apply(f: nat, c: Id, g: nat, fn: Id, yes: Branches)  // a function is called by its name
    | Transact(f: nat, c: Id, yes: Branches)      // `.execute(callback)` runs its callback
    | Host(f: nat, fn: Id)                        // a function is called from outside
    // a call of the query builder runs; a table argument that is no text names `computed`
    | Ask(f: nat, c: Id, yes: Branches, computed: seq<string>)
    | Lose(f: nat, c: Id, i: nat, yes: Branches)  // a call lands in a missing declaration

  // ----- scopes and environments -----

  function ScopeAt(p: Program, n: Id): (s: Id)
    requires n < |p.nodes|
    ensures s <= n && IsScope(p.nodes[s])
    decreases n
  {
    if IsScope(p.nodes[n]) then n else ScopeAt(p, Up(p, n))
  }

  /** The scope a node is evaluated in. */
  function Home(p: Program, n: Id): (s: Id)
    requires n < |p.nodes| && !p.nodes[n].File?
    ensures s < n && IsScope(p.nodes[s])
  {
    ScopeAt(p, Up(p, n))
  }

  /** `n` is evaluated in the environment record `f`. */
  predicate RunsIn(p: Program, frames: seq<Frame>, f: nat, n: Id) {
    f < |frames| && n < |p.nodes| && !p.nodes[n].File? && Home(p, n) == frames[f].scope
  }

  ghost predicate WellLinked(p: Program, frames: seq<Frame>) {
    forall k :: 0 <= k < |frames| ==> LinkFits(p, frames, k)
  }

  predicate LinkFits(p: Program, frames: seq<Frame>, k: nat)
    requires k < |frames|
  {
    var fr := frames[k];
    fr.scope < |p.nodes| && IsScope(p.nodes[fr.scope]) &&
    if p.nodes[fr.scope].File? then fr.up.None?
    else fr.up.Some? && fr.up.value < k && frames[fr.up.value].scope == Home(p, fr.scope)
  }

  /** The nearest record whose scope declares `x`. */
  ghost function Holder(p: Program, frames: seq<Frame>, f: nat, x: string): (r: Option<nat>)
    requires WellLinked(p, frames) && f < |frames|
    ensures r.Some? ==> r.value < |frames| && Declares(p, frames[r.value].scope, x)
  {
    assert LinkFits(p, frames, f);
    if Declares(p, frames[f].scope, x) then Some(f)
    else if frames[f].up.None? then None
    else Holder(p, frames, frames[f].up.value, x)
  }

  /** The value of a name; reading it too early throws, which runs nothing further. */
  ghost function Lookup(p: Program, frames: seq<Frame>, f: nat, x: string): Value
    requires WellLinked(p, frames) && f < |frames|
  {
    var h := Holder(p, frames, f, x);
    if h.Some? && x in frames[h.value].vals then frames[h.value].vals[x] else Plain
  }

  /** The record and the function a called name refers to. */
  function FnFrame(p: Program, frames: seq<Frame>, f: nat, x: string): (r: Option<(nat, Id)>)
    requires WellLinked(p, frames) && f < |frames|
    ensures r.Some? ==> r.value.0 < |frames| && LinkFits(p, frames, r.value.0)
    ensures r.Some? ==> FnNamed(p, frames[r.value.0].scope, x) == Some(r.value.1)
  {
    assert LinkFits(p, frames, f);
    var hit := FnNamed(p, frames[f].scope, x);
    if hit.Some? then Some((f, hit.value))
    else if frames[f].up.None? then None
    else FnFrame(p, frames, frames[f].up.value, x)
  }

  /** `sql.raw(…)`, which makes a statement of a text. */
  predicate MakesRaw(p: Program, e: Id)
    requires e < |p.nodes|
  {
    IsMethodCall(p, e) && Member(p, e) == "raw" && p.nodes[Receiver(p, e)] == Ident("sql")
  }

  /** The methods that finish a query or a transaction. */
  predicate Executes(member: string) {
    "execute" <= member
  }

  ghost function Eval(p: Program, yes: Branches, frames: seq<Frame>, f: nat, e: Id): (v: Value)
    requires WellLinked(p, frames) && f < |frames| && e < |p.nodes|
    decreases |p.nodes| - e
  {
    var n := p.nodes[e];
    if n.Ident? then Lookup(p, frames, f, n.text)
    else if n.Wrap? then assert n.inner in Kids(n); Eval(p, yes, frames, f, n.inner)
    else if n.Cond? then
      assert n.yes in Kids(n) && n.no in Kids(n);
      if e in yes then Eval(p, yes, frames, f, n.yes) else Eval(p, yes, frames, f, n.no)
    else if n.Str? then Text(n.word, n.named)
    else if n.Sql? then Stmt(n.tables)
    else if MakesRaw(p, e) then
      if n.args == [] then Plain
      else
        var text := Eval(p, yes, frames, f, Arg(p, e, 0));
        if text.Text? then Stmt(text.tables) else Plain
    else if IsMethodCall(p, e) then CallValue(Eval(p, yes, frames, f, Receiver(p, e)), Member(p, e))
    else Plain
  }

  /** The methods of a handle that start a query on the table they name. */
  const STARTS: set<string> := {"selectFrom", "insertInto", "updateTable", "deleteFrom", "mergeInto", "replaceInto"}

  /** The methods of a handle that open a transaction or reserve a connection. */
  const TRANSACTIONS: set<string> := {"transaction", "connection"}

  /** The methods of a query that join a table: `join` stands in the name, in any case. */
  predicate Joins(name: string) {
    exists k :: 0 <= k <= |name| - 4 && name[k] in {'j', 'J'} && name[k + 1] in {'o', 'O'} &&
      name[k + 2] in {'i', 'I'} && name[k + 3] in {'n', 'N'}
  }

  /** The methods of a handle that give a handle again. */
  const WITHS: set<string> := {"with", "withRecursive", "withSchema", "withPlugin"}

  /** The methods of a query that add a table they name, and that no `join` in the name gives away. */
  const SOURCES: set<string> := {"using", "from"}

  function CallValue(receiver: Value, member: string): Value {
    if Handle(receiver) && member in TRANSACTIONS then Opener
    else if Handle(receiver) && member in STARTS then Query
    else if Handle(receiver) && member in WITHS then receiver
    else if (receiver.Opener? || receiver.Query? || receiver.Stmt?) && !Executes(member) then receiver
    else Plain
  }

  // ----- steps -----

  predicate HasInit(p: Program, d: Id)
    requires d < |p.nodes|
  {
    p.nodes[d].VarDecl? && p.nodes[d].init.Some?
  }

  /** The values a call binds: a named parameter gets its argument, a rest parameter an array. */
  ghost function BindParams(p: Program, yes: Branches, frames: seq<Frame>, f: nat, c: Id, fn: Id, i: nat): map<string, Value>
    requires WellLinked(p, frames) && f < |frames|
    requires c < |p.nodes| && p.nodes[c].Call? && fn < |p.nodes| && p.nodes[fn].Func?
    requires i <= |p.nodes[fn].params|
    decreases |p.nodes[fn].params| - i
  {
    if i == |p.nodes[fn].params| then map[]
    else
      var d := p.nodes[ParamAt(p, fn, i)];
      var rest := BindParams(p, yes, frames, f, c, fn, i + 1);
      if d.name.Pattern? then rest
      else
        var v := if i < |p.nodes[c].args| && !d.rest then Eval(p, yes, frames, f, Arg(p, c, i)) else Plain;
        rest[d.name.text := v]
  }

  /** What the first parameter of a transaction's callback gets. */
  ghost function BindHandle(p: Program, cb: Id, v: Value): map<string, Value>
    requires cb < |p.nodes| && p.nodes[cb].Func?
  {
    if p.nodes[cb].params == [] then map[]
    else
      var d := p.nodes[ParamAt(p, cb, 0)];
      if d.name.Pattern? then map[]
      else map[d.name.text := if v.Opener? && !d.rest then Txn else Plain]
  }

  /** The callback of `.execute(cb)`, under whatever casts it is written. */
  predicate TakesCallback(p: Program, c: Id)
    requires c < |p.nodes|
  {
    IsMethodCall(p, c) && Member(p, c) == "execute" && p.nodes[c].args != [] &&
    p.nodes[Strip(p, Arg(p, c, 0))].Func? && p.nodes[Strip(p, Arg(p, c, 0))].fname.None?
  }

  /** The call names a table in its first argument and a query on the raw pool reads or writes it. */
  predicate NamesTable(receiver: Value, member: string) {
    (Handle(receiver) && member in STARTS) || (receiver.Query? && (Joins(member) || member in SOURCES))
  }

  /** The tables the first argument stands for when the call runs, however it is written. */
  ghost function TablesNamed(p: Program, yes: Branches, frames: seq<Frame>, f: nat, c: Id, computed: seq<string>): seq<string>
    requires WellLinked(p, frames) && f < |frames| && c < |p.nodes| && p.nodes[c].Call?
  {
    if p.nodes[c].args == [] then []
    else
      var v := Eval(p, yes, frames, f, Arg(p, c, 0));
      if v.Text? then [v.word] else computed
  }

  /** The tables a call of the query builder touches on the raw pool. */
  ghost function Touched(p: Program, yes: Branches, frames: seq<Frame>, f: nat, c: Id, computed: seq<string>): seq<string>
    requires WellLinked(p, frames) && f < |frames| && c < |p.nodes|
  {
    if !IsMethodCall(p, c) then []
    else
      var v := Eval(p, yes, frames, f, Receiver(p, c));
      if NamesTable(v, Member(p, c)) then TablesNamed(p, yes, frames, f, c, computed)
      else if Member(p, c) == "execute" && p.nodes[c].args != [] && Handle(Eval(p, yes, frames, f, Arg(p, c, 0))) && v.Stmt?
      then v.tables
      else []
  }

  function Logged(c: Id, tables: seq<string>): (r: seq<Event>)
    ensures forall ev :: ev in r ==> ev.Touches? && ev.call == c && ev.table in tables
  {
    if tables == [] then [] else [Touches(c, tables[0])] + Logged(c, tables[1..])
  }

  /** Where a call by name finds its function: in a record around it, or in an imported file. */
  ghost predicate LandsIn(p: Program, frames: seq<Frame>, f: nat, c: Id, g: nat, fn: Id)
    requires WellLinked(p, frames) && f < |frames| && c < |p.nodes| && IsNamedCall(p, c)
  {
    var x := CalleeName(p, c);
    match FnFrame(p, frames, f, x)
    case Some(hit) => hit == (g, fn)
    case None =>
      (Root(p, c), x) in p.imports &&
      var i := p.imports[(Root(p, c), x)];
      i.Inside? && i.file.Some? && g < |frames| && frames[g].scope == i.file.value &&
      FnNamed(p, i.file.value, i.exported) == Some(fn)
  }

  ghost predicate Missing(p: Program, frames: seq<Frame>, f: nat, c: Id)
    requires WellLinked(p, frames) && f < |frames| && c < |p.nodes| && IsNamedCall(p, c)
  {
    var x := CalleeName(p, c);
    FnFrame(p, frames, f, x).None? && (Root(p, c), x) in p.imports &&
    var i := p.imports[(Root(p, c), x)];
    i.Inside? && (i.file.None? || FnNamed(p, i.file.value, i.exported).None?)
  }

  /** The step can be taken.  The raw pool comes from outside only under the name `poolDb`. */
  ghost predicate Enabled(p: Program, s: State, a: Action)
    requires WellLinked(p, s.frames)
  {
    match a
    case Load(file) => file < |p.nodes| && p.nodes[file].File?
    case Enter(f, n) =>
      RunsIn(p, s.frames, f, n) && (p.nodes[n].Block? || p.nodes[n].For? || p.nodes[n].Catch?)
    case Init(f, d, yes) =>
      RunsIn(p, s.frames, f, d) && p.nodes[d].VarDecl? && p.nodes[d].init.Some? && p.nodes[d].name.Named? &&
      p.nodes[d].name.text !in s.frames[f].vals
    case Receive(f, d, v) =>
      f < |s.frames| && d < |p.nodes| && IsDecl(p.nodes[d]) && p.nodes[d].name.Named? &&
      Owner(p, d) == s.frames[f].scope && p.nodes[d].name.text !in s.frames[f].vals &&
      (v == Plain || (v == RawPool && p.nodes[d].name.text == "poolDb") || (Says(v) && !HasInit(p, d)))
    case Apply(f, c, g, fn, yes) =>
      RunsIn(p, s.frames, f, c) && IsNamedCall(p, c) && LandsIn(p, s.frames, f, c, g, fn)
    case Transact(f, c, yes) => RunsIn(p, s.frames, f, c) && TakesCallback(p, c)
    case Host(f, fn) => RunsIn(p, s.frames, f, fn) && p.nodes[fn].Func?
    case Ask(f, c, yes, _) => RunsIn(p, s.frames, f, c)
    case Lose(f, c, i, yes) =>
      RunsIn(p, s.frames, f, c) && IsNamedCall(p, c) && i < |p.nodes[c].args| &&
      Handle(Eval(p, yes, s.frames, f, Arg(p, c, i))) && Missing(p, s.frames, f, c)
  }

  function Push(s: State, scope: Id, up: Option<nat>, vals: map<string, Value>): State {
    s.(frames := s.frames + [Frame(scope, up, vals)])
  }

  function Assign(s: State, f: nat, x: string, v: Value): State
    requires f < |s.frames|
  {
    s.(frames := s.frames[f := s.frames[f].(vals := s.frames[f].vals[x := v])])
  }

  ghost function Effect(p: Program, s: State, a: Action): State
    requires WellLinked(p, s.frames) && Enabled(p, s, a)
  {
    match a
    case Load(file) => Push(s, file, None, map[])
    case Enter(f, n) => Push(s, n, Some(f), map[])
    case Init(f, d, yes) =>
      assert p.nodes[d].init.value in Kids(p.nodes[d]);
      Assign(s, f, p.nodes[d].name.text, Eval(p, yes, s.frames, f, p.nodes[d].init.value))
    case Receive(f, d, v) => Assign(s, f, p.nodes[d].name.text, v)
    case Apply(f, c, g, fn, yes) => Push(s, fn, Some(g), BindParams(p, yes, s.frames, f, c, fn, 0))
    case Transact(f, c, yes) =>
      var cb := Strip(p, Arg(p, c, 0));
      Push(s, cb, Some(f), BindHandle(p, cb, Eval(p, yes, s.frames, f, Receiver(p, c))))
    case Host(f, fn) => Push(s, fn, Some(f), map[])
    case Ask(f, c, yes, computed) => s.(log := s.log + Logged(c, Touched(p, yes, s.frames, f, c, computed)))
    case Lose(f, c, i, yes) => s.(log := s.log + [Lost(c)])
  }

  // ----- what the gate does not follow -----

  /** A query on the pool, still under construction. */
  predicate IsQueryChain(p: Program, pool: set<Id>, e: Id)
    requires e < |p.nodes|
    decreases |p.nodes| - e
  {
    var x := Strip(p, e);
    IsMethodCall(p, x) &&
    ((Member(p, x) in STARTS && OnPool(p, pool, Receiver(p, x))) ||
     (!Executes(Member(p, x)) && IsQueryChain(p, pool, Receiver(p, x))))
  }

  /** A transaction or connection about to be opened on the pool. */
  predicate IsOpenerChain(p: Program, pool: set<Id>, e: Id)
    requires e < |p.nodes|
    decreases |p.nodes| - e
  {
    var x := Strip(p, e);
    IsMethodCall(p, x) &&
    ((Member(p, x) in TRANSACTIONS && OnPool(p, pool, Receiver(p, x))) ||
     (!Executes(Member(p, x)) && IsOpenerChain(p, pool, Receiver(p, x))))
  }

  predicate Unfinished(p: Program, pool: set<Id>, e: Id)
    requires e < |p.nodes|
  {
    IsQueryChain(p, pool, e) || IsOpenerChain(p, pool, e)
  }

  /** The call names a table for a query on the pool. */
  predicate NamesOnPool(p: Program, pool: set<Id>, c: Id)
    requires c < |p.nodes|
  {
    IsMethodCall(p, c) &&
    ((Member(p, c) in STARTS && OnPool(p, pool, Receiver(p, c))) ||
     ((Joins(Member(p, c)) || Member(p, c) in SOURCES) && IsQueryChain(p, pool, Receiver(p, c))))
  }

  /** The reasons why the gate cannot follow a node.  Each is about the pool; what is done with any
      other handle does not matter. */
  datatype Reason =
    | KeptUnfinished      // an unfinished query or transaction is kept under a name
    | PassedUnfinished    // or passed to a function
    | CastCallback        // a transaction's callback is cast
    | CastInChain         // a query is cast before the next call
    | Choice              // a conditional expression can be the pool, or an unfinished query
    | Untraceable         // a statement executed cannot be traced
    | OtherMethod         // the pool is used by a method the gate does not know
    | OtherSource         // a table is added to a query by a method the gate does not know
    | ComputedTable       // a table is named by anything but a literal

  predicate Escapes(p: Program, pool: set<Id>, n: Id, why: Reason)
    requires n < |p.nodes|
  {
    var node := p.nodes[n];
    match why
    case KeptUnfinished =>
      node.VarDecl? && node.init.Some? && node.name.Named? &&
      (assert node.init.value in Kids(node); Unfinished(p, pool, node.init.value))
    case PassedUnfinished =>
      node.Call? && IsNamedCall(p, n) && exists i :: 0 <= i < |node.args| && Unfinished(p, pool, Arg(p, n, i))
    case CastCallback => TakesCallback(p, n) && p.nodes[Arg(p, n, 0)].Wrap? && IsOpenerChain(p, pool, Receiver(p, n))
    case CastInChain => IsMethodCall(p, n) && p.nodes[Receiver(p, n)].Wrap? && IsQueryChain(p, pool, Receiver(p, n))
    case Choice =>
      node.Cond? &&
      (assert node.yes in Kids(node) && node.no in Kids(node);
       OnPool(p, pool, node.yes) || OnPool(p, pool, node.no) || Unfinished(p, pool, node.yes) || Unfinished(p, pool, node.no))
    case Untraceable =>
      IsMethodCall(p, n) && Member(p, n) == "execute" && node.args != [] && OnPool(p, pool, Arg(p, n, 0)) &&
      !Traceable(p, Receiver(p, n), 0)
    case OtherMethod => IsMethodCall(p, n) && Member(p, n) in WITHS + {"replaceInto"} && OnPool(p, pool, Receiver(p, n))
    case OtherSource => IsMethodCall(p, n) && Member(p, n) in SOURCES && IsQueryChain(p, pool, Receiver(p, n))
    case ComputedTable => NamesOnPool(p, pool, n) && p.nodes[n].args != [] && !p.nodes[Arg(p, n, 0)].Str?
  }

  /** A reason that concerns the call it stands on and no value that goes on from there. */
  predicate Local(why: Reason) {
    why.Untraceable? || why.OtherSource? || why.ComputedTable?
  }

  /** What the gate does not see of call `c` is on the call itself to be seen. */
  predicate Excused(p: Program, pool: set<Id>, c: Id)
    requires c < |p.nodes|
  {
    exists why :: Local(why) && Escapes(p, pool, c, why)
  }

  predicate Plainly(p: Program, pool: set<Id>, n: Id)
    requires n < |p.nodes|
  {
    forall why :: Escapes(p, pool, n, why) ==> Local(why)
  }

  /** No node gives any reason. */
  ghost predicate GivesNoReason(p: Program, pool: set<Id>) {
    forall n: Id, why :: n < |p.nodes| ==> !Escapes(p, pool, n, why)
  }

  /** The gate can follow every value: no node gives a reason but those local to a call. */
  ghost predicate Followed(p: Program, pool: set<Id>) {
    forall n: Id :: n < |p.nodes| ==> Plainly(p, pool, n)
  }

  lemma {:induction false} ChainsStartOnPool(p: Program, pool: set<Id>, e: Id)
    requires forall x: Id :: x < |p.nodes| ==> !OnPool(p, pool, x)
    requires e < |p.nodes|
    ensures !Unfinished(p, pool, e)
    decreases |p.nodes| - e
  {
    hide Valid, OnPool;
    var x := Strip(p, e);
    if !IsMethodCall(p, x) {
    } else {
      ChainsStartOnPool(p, pool, Receiver(p, x));
    }
  }

  /** Only what is done with the pool can be a reason: a program that holds no pool is followed,
      whatever it does with its other handles. */
  lemma OtherHandlesAreFollowed(p: Program, pool: set<Id>)
    requires forall x: Id :: x < |p.nodes| ==> !OnPool(p, pool, x)
    ensures GivesNoReason(p, pool) && Followed(p, pool)
  {
    hide OnPool, IsQueryChain, IsOpenerChain, Traceable;
    forall e: Id | e < |p.nodes| ensures !IsQueryChain(p, pool, e) {
      ChainsStartOnPool(p, pool, e);
    }
    forall e: Id | e < |p.nodes| ensures !IsOpenerChain(p, pool, e) {
      ChainsStartOnPool(p, pool, e);
    }
    forall n: Id, why | n < |p.nodes| ensures !Escapes(p, pool, n, why) {
      var node := p.nodes[n];
      assert node.VarDecl? && node.init.Some? ==> node.init.value in Kids(node);
      assert node.Cond? ==> node.yes in Kids(node) && node.no in Kids(node);
    }
  }
}
